# hyper 0.14 in Dafny: the body codec, the HTTP/1 connection, the client pool and the HTTP/2 pings

This project models the parts of hyper that carry its hardest logic, and proves what they promise.
The model is imperative where hyper is: decoders, encoders, buffers, connections, pools and timers
are classes whose methods update fields, with loops where hyper has loops. Whatever hyper does not
control is left open. The transport delivers and takes bytes in any pieces, or none, or fails;
services, callers and timers act whenever they like; message heads parse and encode to anything
`role.rs` may return. Statements about whole runs are contracts of methods that make any number of
such steps (`Run`, `ReadToEnd`, `EncodeBody`, ...), so they hold for every schedule.

`dafny verify dfyconfig.toml` checks everything.

| file | subject |
|---|---|
| `Bytes`, `Length` | bytes, polling results, `DecodedLength` |
| `ReadIo`, `WriteBuf`, `ReadStrategy` | the two halves of `Buffered`, and how much it reads at a time |
| `ChunkedGrammar`, `Decode`, `DecodeTheorems` | the chunked coding as a grammar; the resumable decoders; the two against each other |
| `Encode`, `RoundTrip` | the encoders; encoders against decoders |
| `Exchange`, `Conn`, `Dispatch` | histories of a connection and their order; the connection; the dispatcher |
| `ClientChannel`, `Retry` | the queue in front of a client connection; the retry loop of the pooled client |
| `IdleList`, `Pool` | idle connections of one host; the pool |
| `Bdp`, `Ping` | the window estimator (module `BdpEstimate`); keep-alive and measuring pings |
| `BodyChannel`, `ContentLength` | bodies with a known length on their way to the user; the Content-Length header |

## What is proved

* **Decoding does not depend on the schedule.** `Decode.Meaning` says what a decoder makes of a whole
  stream, in one recursive pass. The resumable decoder delivers exactly those bytes and that verdict
  however reads are split and delayed, and stops exactly where the body ends
  (`DecodeTheorems.ReadToEnd`). For the chunked coding the accepted streams are exactly those of a
  grammar that does not mention the decoder (`AcceptedIffGrammatical`), a size is refused for overflow
  exactly when its value reaches 2^64, and a message cut short is never taken for a complete or a
  malformed one.
* **Round trip.** Whatever the encoder writes, ended in any of the three ways, its decoder reads back,
  leaving any following bytes unread, under any read schedule (`RoundTrip.EncodeThenDecode`,
  `EncodeAtOnceThenDecode`); and if the
  encoder says that the connection may be used again, what was written was one delimited body
  (`RoundTrip.EncodeBody`, `ChunkedRoundTrip`, `FullDelimited`).
* **One FIFO of bytes** under both write strategies: what was sent, followed by what waits, is the bytes
  of everything that was accepted, in order, and a head is refused exactly while a queued body is not yet
  sent to its end, which it is after any flush that succeeds (`WriteBuf.Run`). A flush stops only when the
  transport is blocked, fails, or takes nothing (`WriteBuf.Writer.PollFlush`).
* **Exchanges never overlap**, for servers and clients, over every run (`Dispatch.Run`): the history of
  the connection is ordered as section 6.3 of RFC 7230 asks, once keep-alive is given up at most one more
  head goes each way, the requests settled with a response are, in order, those whose responses were read,
  and a request is handed back to be tried again only if its head was never written. The retry loop
  therefore writes a head at most once (`Retry.RetryablySendRequest`). Every request
  that reached a client is settled unless its caller had gone, and one more may be left without an answer
  only if the dispatcher is dropped before it has ended; so what src/client/conn.rs:327 calls a bug does
  not happen to a dispatcher that ends by itself. A server that ends by itself and without an error has
  answered every request it read, unless its write side was closed. The connection is reset only after
  the decoder was at its end and the bytes pushed for the outgoing body were one delimited body that its
  own decoder reads back (`Conn.Conn.TryKeepAliveState`), and the decoder for an incoming body is the right
  one for the length announced (`Conn.RightDecoder`, `Conn.PeerReadsBack`).
* **The pool** (`Pool.Run`): over all interleavings no host has both an idle connection and a parked
  checkout, a connection that cannot be shared has one owner at most and goes to the oldest checkout that
  still wants it, a checkout gets the newest connection that is open and not idle for longer than the
  timeout (`IdleList.Pop`), idle lists are bounded, non-empty and sorted, and the hosts marked as connecting are
  exactly those of the live locks, no two of which are for the same host. The early exit that a TODO in `pop` asks about is the same as the loop
  (`IdleList.EarlyExitIsTheSame`).
* **Pings** (`Ping.Run`, `BdpEstimate.Run`): keep-alive tries a ping only when nothing was read for the
  interval, and reports one timeout at most, with a ping out, no sooner than the timeout after its attempt
  and with no pong between; a pong that has come is accepted (`Ping.Ponger.Poll`); the adaptive window only grows, by a third or so each time, and so at most
  twenty times.
* **Bodies with a known length** (`BodyChannel.Run`): no byte is lost or repeated between decoder, channel
  and user, the length that is left never goes below zero and is zero exactly when all was received.

### Where the code differs from what is said about it

* A chunk size without any digits is accepted and counts as 0, and so is anything without a CR in the
  trailer section; section 4.1 of RFC 7230 allows neither. The grammar follows the code.
* The queue in front of a client connection is described as holding one request beyond those asked for.
  It can hold two when a sender is caught between accepting and queueing or the receiver between
  finding the queue empty and asking for more, and three when both can be (`ClientChannel.Run` proves the
  bounds; `TwoUnreceived`, `TwoUnreceivedBySender` and `ThreeUnreceived` reach them).
* A body of known length can end for the user without an error and before all of it was received:
  `BodyChannel.QuietShortEnd` is such a run. It happens if and only if the sending half was dropped, with
  the dispatcher or by it, before the decoder was at its end (`BodyChannel.Run`), and `is_end_stream`
  then says so.
* Keep-alive is documented to close the connection when no pong comes within the timeout after a ping was
  sent. By `Ping.PingWasOut` a ping was out for the whole timeout if and only if the attempt left one
  out. If the `h2` crate were to refuse a ping while none is out and to accept one later, that could fail:
  `Ping.YoungPingTimesOut` is such a run, closed although the only ping is one tick old. If such a
  refusal is final, it cannot (`Ping.FinalRefusalsKeepTheDocs`). What `h2` does is left open here.

## Model

| member | source | states |
|---|---|---|
| `Length.DecodedLength.IntoOpt` | src/body/length.rs:43-48 | a length is exact unless it is one of the two values set aside, and is then itself |
| `Length.CheckedNew` | src/body/length.rs:52-61 | exactly the lengths that are not set aside are accepted, and come back unchanged |
| `Length.DecodedLength.SubIf` | src/body/length.rs:63-70 | an exact length goes down by the amount, the two values set aside stay |
| `ReadIo.Buffered.PollReadFromIo` | src/proto/h1/io.rs:245-277 | a read moves bytes from the wire to the buffer and loses none; it is empty only at end of file |
| `ReadIo.Buffered.ConsumeLeadingLines` | src/proto/h1/io.rs:162-173 | drops the line ends in front of a message and nothing else |
| `ReadIo.Buffered.ReadMem` | src/proto/h1/io.rs:364-378 | the next bytes, at most as many as asked for; empty only for a length of 0 or at end of file |
| `Decode.Decoder.ChunkedStep` | src/proto/h1/decode.rs:183-412 | one step consumes at least a byte, keeps the meaning of the rest of the stream, and fails only as the whole stream does; the size is 0 at every chunk start and never underflows |
| `Decode.Decoder.Decode` | src/proto/h1/decode.rs:101-156 | what is delivered, followed by what the decoder still makes of the input, is what it made of the input before; an empty piece means the end; a length goes down by just what was delivered |
| `Decode.Decoder.DecodeChunked` | src/proto/h1/decode.rs:128-141 | the same for the chunked loop, which ends because every step consumes input; it is pending only when the transport is, and an I/O error is the transport's |
| `DecodeTheorems.MessageAccepted` | src/proto/h1/decode.rs:183-412 | every message of the grammar decodes to its payload and leaves what follows it |
| `DecodeTheorems.MessageRecovered` | src/proto/h1/decode.rs:183-412 | every accepted stream is a message of the grammar followed by what was left |
| `DecodeTheorems.AcceptedIffGrammatical` | src/proto/h1/decode.rs:183-412 | both together: acceptance with a payload and a rest, if and only if such a message exists |
| `DecodeTheorems.OverflowIffTooLarge` | src/proto/h1/decode.rs:206-250 | a run of digits gives its exact value, or an overflow error exactly when that value reaches 2^64 |
| `DecodeTheorems.VerdictStable` | src/proto/h1/decode.rs:183-412 | more input changes no verdict but end of file |
| `DecodeTheorems.TruncationIsEndOfFile` | src/proto/h1/decode.rs:183-412 | a message cut anywhere is reported as cut off |
| `DecodeTheorems.ReadToEnd` | src/proto/h1/decode.rs:101-156 | polled any number of times under any schedule, the bytes delivered and the verdict are those of the whole stream; a transport that fails has delivered a prefix |
| `Encode.UpperHex` | src/proto/h1/encode.rs:279-290 | the digits written denote the size |
| `Encode.SixteenDigits` | src/proto/h1/encode.rs:263-290 | a 64-bit size fits into the fixed buffer |
| `Encode.ChunkSize.constructor` | src/proto/h1/encode.rs:279-290 | the buffer holds the size in hexadecimal and a line end |
| `Encode.ChunkSize.WriteStr` | src/proto/h1/encode.rs:319-328 | text is appended in the fixed array |
| `Encode.ChunkSize.Advance` | src/proto/h1/encode.rs:304-307 | consumes from the front |
| `Encode.Encoder.Encode` | src/proto/h1/encode.rs:105-138 | the bytes of one buffer in each framing, cut off at the announced length, and what is still owed; never empty unless nothing is owed |
| `Encode.Encoder.EncodeAndEnd` | src/proto/h1/encode.rs:140-182 | the same with the end of the body, and whether the connection may be used again |
| `Encode.Encoder.End` | src/proto/h1/encode.rs:93-103 | an error exactly when bytes are owed; the last chunk exactly for a chunked body |
| `Encode.Encoder.DangerFullBuf` | src/proto/h1/encode.rs:189-215 | a whole body with its framing |
| `RoundTrip.ChunkedRoundTrip` | src/proto/h1/encode.rs:93-154 | any non-empty chunks, then the last chunk, then anything: the decoder returns the chunks joined and leaves the rest |
| `RoundTrip.EncodeBody` | src/proto/h1/encode.rs:93-182 | a chunked body, and one that fills its length, is one delimited body that reads back; the connection may be used again if and only if it is one of these and not the last |
| `RoundTrip.EncodeThenDecode` | src/proto/h1/decode.rs:101-156 | encoded, followed by anything and decoded under any schedule: always a prefix of the body, the whole of it at the end, and what follows is unread |
| `RoundTrip.EncodeAtOnceThenDecode` | src/proto/h1/encode.rs:189-215 | the same for a body written at once |
| `RoundTrip.OpenedFurther` | src/proto/h1/encode.rs:105-112 | chunks pushed so far are read as their payload and leave what follows; one more chunk adds its bytes |
| `RoundTrip.OpenedEnds` | src/proto/h1/encode.rs:93-103 | after the last chunk they are one delimited body |
| `RoundTrip.FilledLength` | src/proto/h1/encode.rs:113-130 | a length that is filled stays filled whatever comes after |
| `RoundTrip.EndedWithLast` | src/proto/h1/encode.rs:140-182 | ending with the last buffer frames the body as ending after it would |
| `RoundTrip.FullDelimited` | src/proto/h1/encode.rs:189-215 | a body written at once reads back |
| `WriteBuf.BufList.Push` | src/common/buf.rs:18-21 | a buffer goes to the end |
| `WriteBuf.BufList.RemainingBytes` | src/common/buf.rs:32-34 | the number of bytes in the list |
| `WriteBuf.BufList.Advance` | src/common/buf.rs:42-57 | exactly the first bytes are dropped, across buffers |
| `WriteBuf.BufList.ChunksVectored` | src/common/buf.rs:60-72 | at most as many slices as there is room for; together a prefix of the list, and not empty if the list is not |
| `WriteBuf.BufList.CopyToBytes` | src/common/buf.rs:75-92 | in all three ways, the first bytes, which leave the list |
| `WriteBuf.Cursor.MaybeUnshift` | src/proto/h1/io.rs:485-498 | moves what is unread to the front without changing it |
| `WriteBuf.WriteBuf.CanBuffer` | src/proto/h1/io.rs:599-606 | the limits of both strategies |
| `WriteBuf.WriteBuf.AppendHeaders` | src/proto/h1/io.rs:608-611 | a head is appended, when nothing is queued behind the cursor |
| `WriteBuf.WriteBuf.Buffer` | src/proto/h1/io.rs:562-597 | a body buffer is appended, under either strategy |
| `WriteBuf.WriteBuf.Advance` | src/proto/h1/io.rs:640-652 | exactly the first bytes are dropped, across headers and queue |
| `WriteBuf.WriteBuf.ChunksVectored` | src/proto/h1/io.rs:655-658 | at most 64 slices, a prefix of what waits, not empty if anything does |
| `WriteBuf.Writer.PollFlush` | src/proto/h1/io.rs:291-325 | what was sent followed by what waits never changes; unless it is put off, the last answer of the transport decides how it ends: pending when blocked, an error when failing, WriteZero only when nothing was taken of what waits, success only when nothing waits and the transport is flushed |
| `WriteBuf.Writer.PollFlushQueue` | src/proto/h1/io.rs:300-323 | the same for the queue strategy |
| `WriteBuf.Writer.PollFlushFlattened` | src/proto/h1/io.rs:331-348 | the same for the flattened strategy |
| `WriteBuf.Run` | src/proto/h1/io.rs:291-348 | over any run of heads, bodies and partial writes, the bytes sent followed by those pending are the bytes of the accepted operations, in order; only flushes send, and one that succeeds and is not put off has sent everything; an operation is refused if and only if it is a head, bodies are queued, and the last one before it is not sent to its end |
| `ReadStrategy.PrevPowerOfTwo` | src/proto/h1/io.rs:455-460 | half of the largest power of two that is not above n, for n of at least 4 |
| `ReadStrategy.Adaptive.Record` | src/proto/h1/io.rs:416-449 | keeps the promise below; a second small read in a row shrinks a size above the first one |
| `ReadStrategy.Run` | src/proto/h1/io.rs:391-460 | for any reads, sizes stay between 8192 and the maximum, are the maximum or powers of two, double when filled, and shrink only after two small reads in a row |
| `Exchange.AcceptedServerOrdered` | src/proto/h1/conn.rs:969-1021 | what the connection lets happen on a server is ordered: a request is read only when all earlier ones are answered, one error reply at most, after the read side closed |
| `Exchange.AcceptedClientOrdered` | src/proto/h1/conn.rs:969-1021 | and on a client: a request is written only when all earlier ones are answered, and a response belongs to the one request without one |
| `Exchange.AcceptedWindsDown` | src/proto/h1/conn.rs:901-939 | once keep-alive is given up, no reset, and one more head each way at most |
| `Exchange.ClosedForGood` | src/proto/h1/conn.rs:942-959 | a direction that has closed, and keep-alive given up, stay so |
| `Conn.Conn.CloseRead` | src/proto/h1/conn.rs:949-953 | closes the read side and gives up keep-alive |
| `Conn.Conn.CloseWrite` | src/proto/h1/conn.rs:955-959 | closes the write side and gives up keep-alive, in any state |
| `Conn.Conn.DisableKeepAlive` | src/proto/h1/conn.rs:771-779 | closes an idle connection, lets a busy one finish |
| `Conn.Conn.TryKeepAliveState` | src/proto/h1/conn.rs:969-1021 | the connection is reset only when both messages are complete and keep-alive is wanted: the decoder was at its end, and the bytes pushed are one delimited body that reads back; otherwise finished directions close |
| `Conn.Conn.BecomeIdle` | src/proto/h1/conn.rs:1001-1021 | at the reset the decoder was at its end and the bytes pushed were one delimited body; a client looks for more to do |
| `Conn.Conn.MaybeNotify` | src/proto/h1/conn.rs:434-479 | looks for more input only between messages, and not while bytes are there or the last read was blocked; afterwards it waits for the transport or asks to be polled again; end of file closes, an idle connection on both sides |
| `Conn.Conn.TryKeepAlive` | src/proto/h1/conn.rs:481-484 | leaves no finished direction waiting for another finished one |
| `Conn.Conn.Parse` | src/proto/h1/io.rs:175-243 | a head, an error, or a transport that has no more to give |
| `Conn.Conn.PollReadHead` | src/proto/h1/conn.rs:183-254 | a head starts the message of its exchange; what is returned and whether keep-alive goes is what the head said; the next body is read as exactly so many bytes, as a message of the chunked grammar and nothing else, or as everything up to the end, as announced; while the read side is open, pending only when the transport is |
| `Conn.RightDecoder` | src/proto/h1/decode.rs:87-95 | the decoder chosen for an announced length reads any stream as that length says |
| `Conn.PeerReadsBack` | src/proto/h1/decode.rs:87-95 | each framing is read, under the length announced for it, by the decoder that reads it back, for every length that can be announced |
| `Conn.Conn.AcceptHead` | src/proto/h1/conn.rs:228-251 | busy, unless keep-alive is or was given up; a new decoder for the announced length |
| `Conn.Conn.OnReadHeadError` | src/proto/h1/conn.rs:256-280 | an error is reported, answered by a server, or taken as a quiet end, exactly as the guards say |
| `Conn.Conn.PollReadBody` | src/proto/h1/conn.rs:282-337 | the bytes of the body as the decoder means them; when the body is over the connection stands at what follows it and stays open for the outgoing message or the next exchange; the branch marked unreachable is; pending only when the transport is, an error only when it fails or the stream is broken; 100 Continue is pushed exactly when it is waited for and nothing was answered |
| `Conn.Conn.FinishReading` | src/proto/h1/conn.rs:334-336 | a body that is over completes its message, one that is broken closes the read side |
| `Conn.Conn.PollDrainOrCloseRead` | src/proto/h1/conn.rs:749-760 | one read is made; the connection stays open if that was all of the body, and otherwise the read side closes |
| `Conn.Conn.PollReadKeepAlive` | src/proto/h1/conn.rs:345-358 | between messages nothing changes but closing |
| `Conn.Conn.MidMessageDetectEof` | src/proto/h1/conn.rs:404-421 | end of file between a message read and the end of its exchange fails and closes the read side unless the transport is blocked; never when half-closing is allowed or bytes are buffered |
| `Conn.Conn.RequireEmptyRead` | src/proto/h1/conn.rs:371-402 | bytes on an idle client connection are an error; end of file is one unless the connection is idle |
| `Conn.Conn.EncodeHead` | src/proto/h1/conn.rs:539-583 | busy on a client; on failure only a server's write side closes |
| `Conn.Conn.WriteHead` | src/proto/h1/conn.rs:509-519 | a head is written once for its exchange, with an encoder that still owes something, or the message is over |
| `Conn.Conn.WriteFullMsg` | src/proto/h1/conn.rs:521-537 | the whole message is written with its framing and is over |
| `Conn.Conn.WriteBody` | src/proto/h1/conn.rs:626-649 | what is pushed is never empty and is the buffer in its framing; the message is over exactly when its length is filled, and what was pushed for it is then one delimited body |
| `Conn.Conn.WriteBodyAndEnd` | src/proto/h1/conn.rs:651-669 | the same with the end of the body; kept alive exactly when the body fills its framing, and is delimited |
| `Conn.Conn.EndBody` | src/proto/h1/conn.rs:671-702 | an error, and closed, exactly when bytes are still owed |
| `Conn.MoreBody` | src/proto/h1/conn.rs:626-649 | a buffer keeps the record of what was pushed true, and one that fills the length completes a delimited body |
| `Conn.LastOfBody` | src/proto/h1/conn.rs:651-669 | so does the last buffer with its end |
| `Conn.WholeBodyWritten` | src/proto/h1/conn.rs:521-537 | and a body written at once |
| `Conn.Conn.TakeError` | src/proto/h1/conn.rs:781-787 | the error is taken once |
| `Conn.Conn.PollFlush` | src/proto/h1/conn.rs:728-733 | only a finished flush can lead to the next message |
| `Dispatch.Dispatcher.PollReady` | src/proto/h1/dispatch.rs:522-531 | a server reads when no response is due, a client when one is |
| `Dispatch.Dispatcher.Arrive` | src/client/dispatch.rs:83-103 | requests join the queue in order |
| `Dispatch.Dispatcher.Canceled` | src/client/dispatch.rs:205-219 | callers may go away at any time, and stay away |
| `Dispatch.Dispatcher.PollMsg` | src/proto/h1/dispatch.rs:561-596 | the next message may be written now; a client takes the oldest request, has none only when the queue is empty, and ends only when all callers or the one whose turn it is have gone |
| `Dispatch.Dispatcher.RecvError` | src/proto/h1/dispatch.rs:598-632 | the request in progress fails; without one the oldest queued request is handed back; else the error is for the caller |
| `Dispatch.Dispatcher.GiveUp` | src/proto/h1/dispatch.rs:120-127 | an error reaches the caller of the request in progress, or hands the oldest queued request back |
| `Dispatch.Dispatcher.RecvMessage` | src/proto/h1/dispatch.rs:598-612 | a response settles the request it answers |
| `Dispatch.Dispatcher.Close` | src/proto/h1/dispatch.rs:383-387 | closes both sides |
| `Dispatch.Dispatcher.PollReadHead` | src/proto/h1/dispatch.rs:237-287 | keeps the invariant that ties messages to requests and to the history; a message is received, or nobody wants one and the connection closes |
| `Dispatch.Dispatcher.PollRead` | src/proto/h1/dispatch.rs:183-235 | the same; without an error a client has then looked at the transport, and whoever still waits can still be answered |
| `Dispatch.Dispatcher.PollWrite` | src/proto/h1/dispatch.rs:289-374 | the same is kept |
| `Dispatch.Dispatcher.WriteBody` | src/proto/h1/dispatch.rs:320-370 | each piece of the user's body adds to the payload on the connection the bytes that the framing still has room for, and its end ends the body there, with an error exactly when bytes are owed |
| `Dispatch.Dispatcher.PollLoop` | src/proto/h1/dispatch.rs:153-181 | the same over sixteen rounds; when everything could be flushed it asks to be polled again, or between messages waits for the transport |
| `Dispatch.Dispatcher.PollOnce` | src/proto/h1/dispatch.rs:115-151 | keeps the invariant, by which no request is dropped unsettled while its caller is there; without an error it ends if and only if it was closed, or reading is closed and it is a client, cannot write, or has no request in flight and no body to write; an error is given to whoever waits; when the poll is the last, nobody is left waiting; stray bytes on an idle client hand the oldest queued request back |
| `Dispatch.Dispatcher.Shutdown` | src/proto/h1/dispatch.rs:139-147 | an error the connection has kept is not lost |
| `Dispatch.Dispatcher.Drop` | src/client/dispatch.rs:179-198 | requests in the queue are handed back, in order; one in progress is dropped without a word |
| `Dispatch.Dispatcher.DisableKeepAlive` | src/proto/h1/dispatch.rs:84-89 | a graceful shutdown at any time keeps it too, and closes an idle connection |
| `Dispatch.Dispatcher.HandBack` | src/client/dispatch.rs:187-198 | a queued request that is dropped is handed back |
| `Dispatch.Run` | src/proto/h1/dispatch.rs:115-404 | over every run: exchanges are ordered and wind down, no request is started or settled twice, those settled with a response are in order those whose responses were read, those handed back were never written; every request that arrived is settled, its caller had gone, or it is the one that a dispatcher dropped before its end leaves behind; a server that ends without an error has answered every request it read unless its write side was closed |
| `Dispatch.AllAnswered` | src/proto/h1/dispatch.rs:389-404 | a server that may end has answered every request, unless it cannot write |
| `Dispatch.HandedBack` | src/proto/h1/dispatch.rs:659-692 | a poll that hands the only request back and writes nothing, from a byte already in the buffer |
| `ClientChannel.Channel.CanSend` | src/client/dispatch.rs:70-81 | accepted exactly when wanted or first, and not again until asked for |
| `ClientChannel.Channel.TrySend` | src/client/dispatch.rs:83-92 | a request is queued exactly when accepted |
| `ClientChannel.Channel.PollRecv` | src/client/dispatch.rs:149-162 | the oldest request, or a word that one is wanted |
| `ClientChannel.Run` | src/client/dispatch.rs:70-162 | at most one request accepted and not received, one more for each end whose two actions can interleave |
| `ClientChannel.TwoUnreceived` | src/client/dispatch.rs:149-162 | two are reached when the receiver can be interrupted |
| `ClientChannel.TwoUnreceivedBySender` | src/client/dispatch.rs:83-92 | two are reached when the sender can be |
| `ClientChannel.ThreeUnreceived` | src/client/dispatch.rs:83-162 | three are reached when both can be |
| `Retry.SendRequest` | src/client/client.rs:224-333 | a turn writes the head at most once, and not at all if the request comes back; how it ends for each way of finding a connection, and whether that had been used before |
| `Retry.QueuedThenReturned` | src/client/client.rs:203-219 | a turn in which a connection took the request and handed it back is one to retry, with no head written |
| `Retry.RetryablySendRequest` | src/client/client.rs:191-222 | over any number of turns the head is written at most once, and once if there is a response; a request handed back by a used connection is tried again exactly when retrying is enabled, and no other is |
| `IdleList.Pop` | src/client/pool.rs:282-320 | the newest entry that is open and, at the reading of the clock made for it, idle for no longer than the timeout; all newer ones were closed or too old at theirs; newer entries go, older ones stay, a shared one stays as the newest |
| `IdleList.EarlyExitIsTheSame` | src/client/pool.rs:290-299 | on sorted lists and a clock that never goes back, dropping the list at the first expired entry gives the same entry and list |
| `IdleList.EarlyExitNeedsSorting` | src/client/pool.rs:290-299 | on a list that is not sorted it does not |
| `IdleList.RetainOrdered` | src/client/pool.rs:449-475 | clearing keeps a list sorted and free of duplicates |
| `IdleList.RetainInOrder` | src/client/pool.rs:455-471 | clearing keeps the old order |
| `Pool.PoolInner.Offer` | src/client/pool.rs:333-359 | a shared connection goes to every checkout that is still wanted; any other to the oldest one, or to none if all have gone |
| `Pool.PoolInner.Put` | src/client/pool.rs:324-390 | keeps the invariant; where the connection has gone, exactly, for each kind and each state of the host |
| `Pool.PoolInner.Connected` | src/client/pool.rs:394-401 | the host of a live lock is marked, so the assertion holds; the mark, the lock and the parked checkouts go, and every other lock keeps its mark |
| `Pool.PoolInner.CleanWaiters` | src/client/pool.rs:434-443 | exactly the checkouts that have gone are forgotten, and the order is kept |
| `Pool.PoolInner.ClearExpired` | src/client/pool.rs:449-475 | an entry stays if and only if it is open and has not been idle for longer than the timeout, in the old order; hosts that have none left go |
| `Pool.PoolInner.Checkout` | src/client/pool.rs:607-654 | the newest usable idle connection, or, if none is usable, a place at the end of the queue |
| `Pool.PoolInner.PollWaiter` | src/client/pool.rs:579-605 | what was sent, closed or open; waiting exactly while the pool knows of the checkout |
| `Pool.PoolInner.CancelWaiter` | src/client/pool.rs:677-686 | what was sent is lost with the checkout |
| `Pool.PoolInner.DropPooled` | src/client/pool.rs:526-546 | a connection goes back unless it has closed |
| `Pool.PoolInner.TryLock` | src/client/pool.rs:155-179 | refused if and only if a live lock is for the host |
| `Pool.Unlocked` | src/client/pool.rs:394-401 | marks and live locks still agree, one to one, when a lock and its mark go |
| `Pool.PoolInner.PooledUnique` | src/client/pool.rs:226-231 | a new connection is in use |
| `Pool.PoolInner.PooledShared` | src/client/pool.rs:205-247 | a shared connection reaches every parked checkout that is still wanted before its lock goes |
| `Pool.PoolInner.DropConnecting` | src/client/pool.rs:706-715 | the lock goes, and the parked checkouts with it |
| `Pool.PlacedOnce` | src/client/pool.rs:205-273 | where every connection is recorded in one place, none has two owners |
| `Pool.Run` | src/client/pool.rs:155-715 | over all interleavings: one owner at most for a connection that is not shared, no host with both idle connections and parked checkouts, good lists, marks that are exactly the hosts of the live locks, and no two locks for one host |
| `BdpEstimate.Bdp.Calculate` | src/proto/h2/ping.rs:408-450 | an update exactly when below the limit, not slower, and the sample fills two thirds of the window; it is twice the sample, up to the limit; what becomes of the delay and the count in each case |
| `BdpEstimate.Bdp.StabilizeDelay` | src/proto/h2/ping.rs:452-461 | the delay is raised fourfold at every second call, while below ten seconds |
| `BdpEstimate.FewUpdates` | src/proto/h2/ping.rs:405-450 | windows that grow as they do from 65,535 grow at most twenty times |
| `BdpEstimate.Run` | src/proto/h2/ping.rs:405-461 | for any samples: at most twenty updates, each larger and at most 16 MiB; the delay stays below 40 seconds |
| `Ping.Shared.SendPing` | src/proto/h2/ping.rs:373-383 | only a ping that goes out is remembered |
| `Ping.Shared.RecordNonData` | src/proto/h2/ping.rs:250-263 | the time of the last read is brought up to date |
| `Ping.Shared.RecordData` | src/proto/h2/ping.rs:215-248 | bytes count while a measurement runs or may start, and start a ping unless one is out |
| `Ping.KeepAlive.Schedule` | src/proto/h2/ping.rs:474-496 | when the timer is set, and to what |
| `Ping.KeepAlive.MaybePing` | src/proto/h2/ping.rs:498-518 | a ping is tried exactly when the timer has gone off and nothing was read after it was set |
| `Ping.KeepAlive.MaybeTimeout` | src/proto/h2/ping.rs:520-531 | a timeout exactly when waiting and the timer has gone off |
| `Ping.Ponger.constructor` | src/proto/h2/ping.rs:45-99 | the initial state for each configuration |
| `Ping.Ponger.AcceptPong` | src/proto/h2/ping.rs:315-342 | a pong clears the ping, counts as read, restarts the timer and ends the measurement; the window is updated exactly when the bytes measured meet the rule |
| `Ping.Ponger.Poll` | src/proto/h2/ping.rs:295-362 | a ping is tried exactly when due; then a pong that has come for the ping that is out is accepted, or without one a timeout is reported exactly when the timer has gone off, or nothing happens; a report ends keep-alive |
| `Ping.AnsweredInTime` | src/proto/h2/ping.rs:315-330 | a pong for the ping that keep-alive waits for ends the waiting, and sets the timer for an interval after it |
| `Ping.QuietBeforeAttempt` | src/proto/h2/ping.rs:498-512 | at an attempt everything ever read is at least the interval old |
| `Ping.PingWasOut` | src/proto/h2/ping.rs:107-111 | a ping was out from the attempt to the timeout if and only if the attempt left one, and is then at least the timeout old |
| `Ping.YoungPingTimesOut` | src/proto/h2/ping.rs:107-111 | if one can be, it may be younger: a concrete run |
| `Ping.FinalRefusalsKeepTheDocs` | src/proto/h2/ping.rs:107-111 | if a refused ping is never followed by an accepted one, every timeout comes with a ping that was out for all of it |
| `Ping.Run` | src/proto/h2/ping.rs:215-531 | over every run all events are as promised, and one timeout is reported at most |
| `BodyChannel.Channel.Feed` | src/proto/h1/dispatch.rs:205-225 | what is decoded goes into the channel: no byte is lost or repeated; the sender lets go at the decoder's end, and before it only with a failure that the user is told of |
| `BodyChannel.Channel.PollInner` | src/body/body.rs:295-313 | the announced length goes down by what is received and never below zero; the end comes early exactly if the user was told of a failure or the sender was dropped before the decoder's end |
| `BodyChannel.Channel.DropSender` | src/proto/h1/dispatch.rs:115-128 | the dispatcher may go away at any moment, and what was sent stays |
| `BodyChannel.Channel.IsEndStream` | src/body/body.rs:400-403 | exactly when everything announced was received |
| `BodyChannel.Channel.SizeHint` | src/body/body.rs:413-437 | exactly what is still to be received |
| `BodyChannel.Run` | src/body/body.rs:142-313 | over every run the user gets the first bytes of the message and never more than announced; an end without an error is short if and only if the sender was dropped early, and is_end_stream tells |
| `BodyChannel.QuietShortEnd` | src/body/body.rs:304-312 | a run that ends after three of ten bytes and without an error |
| `ContentLength.FromDigits` | src/headers.rs:67-92 | a number exactly for a non-empty string of digits whose value is below 2^64 |
| `ContentLength.ParseAllValues` | src/headers.rs:40-65 | a length if and only if there is a value and every value on every line is that number |
| `ContentLength.TrimRemovesBlanks` | src/headers.rs:50 | exactly the spaces and tabs around a value go |
| `ContentLength.SplitThenJoin` | src/headers.rs:49 | the values of a line are what commas separate in it, nothing added or lost |
| `ContentLength.NoCommas` | src/headers.rs:49 | and no value has a comma in it |
| `ContentLength.Reordered` | src/headers.rs:40-65 | the order of the lines does not matter |
| `ContentLength.Joined` | src/headers.rs:40-65 | two lines mean the same as one with a comma between |
| `ContentLength.SameLength` | src/headers.rs:40-65 | so the result is the same |

## Left out

- Parsing and writing heads (`src/proto/h1/role.rs`, `httparse`): a parse ends with any length, flags or error, and writing a head with any encoder. Only a server's head can fail to be written, as in role.rs; for a body known in full the encoder is chunked, empty or of just that length.
- Conn.Conn.WriteFullMsg: assumes, as the debug assertion in `danger_full_buf` does, that the encoder matches the body and is not close-delimited.
- Conn.Conn.PollReadBody: what is pushed for 100 Continue is returned and goes no further; it and an error reply are appended to the write buffer without asking whether it takes headers (src/proto/h1/conn.rs:324, 718), so `WriteBuf.WriteBuf.AppendHeaders` keeps its precondition and no claim is made that every connection meets it.
- Conn.Conn.EncodeHead: for a 1xx response the source writes the bytes of a 500 head before it reports the error (src/proto/h1/role.rs:344-349); the model closes the write side and records no head.
- Conn.Conn.PollFlush: the write buffer of a connection is abstract; whether it is full, flushed or failing is arbitrary. `WriteBuf` models it by itself.
- Dispatch.Dispatcher.PollRead: after one turn the loops of the dispatcher may stop early in the model, so nothing is said about progress, wakers, or promises being settled eventually.
- Dispatch.Dispatcher.PollWrite: for the same reason nothing says that a response or a piece of a body is written as soon as it is ready, only that a server whose write side is open does not end without an error before every request has its response.
- Dispatch.Run: upgrades, informational responses, trailers and header timeouts are not modelled; shutting the transport down ends in any way.
- Retry.SendRequest: requests sent over HTTP/2 are not modelled; connecting may fail, refuse or succeed in any way.
- WriteBuf.Run: a body is given to `buffer` as a list of slices; capacities of vectors are any number large enough.
- Encode.Encoder.EncodeAndEnd: the buffer is returned instead of being pushed into the write buffer.
- ReadStrategy.Adaptive.Record: the fixed-size strategy, which never changes, is left out.
- Pool.Run: a disabled pool, the timer that calls `clear_expired`, and dropping the pool while connections are in use are left out; whether a connection is open is decided anew at each step.
- BdpEstimate.Bdp.Calculate: floating-point bandwidth and round-trip times are one arbitrary boolean, and a sample stays below 2^63 bytes.
- Ping.Run: whether streams are open, whether a ping can be sent and when timers are noticed are arbitrary; the streams of HTTP/2 are not modelled.
- BodyChannel.Channel.Feed: only bodies with an exact, non-zero length; trailers and the flag by which the user first asks for data are left out.
- ContentLength.ParseAllValues: header values are sequences of bytes; `to_str` accepts visible ASCII, spaces and tabs, and `trim` removes spaces and tabs.
- `usize` is 64 bits wide throughout.
- FFI, connectors, TCP, DNS, the accept loop, builders and error texts would only add easy members.
