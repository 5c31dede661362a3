/** The dispatcher of src/proto/h1/dispatch.rs over a connection: a server answering requests or a
    client making them. Services, bodies, callers and the transport are free to do anything at any
    time. The loops of the source end when something is not ready yet; here they may also stop early,
    so every statement holds after any number of turns. */
module Dispatch {
  import opened Bytes
  import opened Exchange
  import opened Length
  import opened ReadIo
  import C = Conn

  // ----- requests given to a client -----

  /** The requests that were settled, each kind in the order in which that happened: with a response,
      with an error, and with an error that hands the request back to be tried elsewhere. */
  datatype Settled = Settled(answered: seq<nat>, failed: seq<nat>, returned: seq<nat>) {
    predicate Has(id: nat) {
      id in answered || id in failed || id in returned
    }
  }

  const NONE_SETTLED := Settled([], [], [])

  /** Requests are numbered as they arrive and wait in that order. */
  ghost predicate QueueOk(queue: seq<nat>, arrived: nat) {
    |queue| <= arrived && forall i :: 0 <= i < |queue| ==> queue[i] == arrived - |queue| + i
  }

  ghost predicate Distinct(ids: seq<nat>) {
    forall i, j :: 0 <= i < j < |ids| ==> ids[i] != ids[j]
  }

  ghost predicate AllBelow(ids: seq<nat>, n: int) {
    forall i :: 0 <= i < |ids| ==> ids[i] < n
  }

  ghost predicate Increasing(ids: seq<nat>) {
    forall i, j :: 0 <= i < j < |ids| ==> ids[i] < ids[j]
  }

  /** No request is settled twice. */
  ghost predicate SettledOnce(s: Settled) {
    && Distinct(s.answered) && Distinct(s.failed) && Distinct(s.returned)
    && (forall id :: id in s.answered ==> id !in s.failed && id !in s.returned)
    && (forall id :: id in s.failed ==> id !in s.returned)
  }

  /** The request is settled, its caller has gone away, or it is the one being waited for. */
  ghost predicate Accounted(s: Settled, left: set<nat>, waiting: Option<nat>, id: nat) {
    s.Has(id) || id in left || waiting == Some(id)
  }

  ghost predicate AllAccounted(s: Settled, left: set<nat>, taken: int, waiting: Option<nat>) {
    forall id: nat :: id < taken ==> Accounted(s, left, waiting, id)
  }

  /** No request is started or settled twice; one that was handed back was never started on the connection, and
      one that was answered was. Only requests taken from the queue, those below `taken`, can have
      been settled or started; `waiting` is the one that has been taken and not settled. None of the
      others is forgotten while its caller is there: `left` are the callers who have gone. */
  ghost predicate SettledOk(s: Settled, started: seq<nat>, taken: int, waiting: Option<nat>, left: set<nat>) {
    && SettledOnce(s)
    && AllBelow(s.answered, taken) && AllBelow(s.failed, taken) && AllBelow(s.returned, taken) && AllBelow(started, taken)
    && (forall id :: id in s.answered ==> id in started)
    && (forall id :: id in s.returned ==> id !in started)
    && Increasing(started)
    && (waiting.Some? ==> waiting.value < taken && !s.Has(waiting.value))
    && AllAccounted(s, left, taken, waiting)
  }

  lemma DistinctSnoc(ids: seq<nat>, id: nat)
    requires Distinct(ids) && id !in ids
    ensures Distinct(ids + [id])
  {
  }

  /** The request that was waited for is settled, or is another one, or its caller has gone. */
  lemma StillAccounted(s: Settled, t: Settled, left: set<nat>, more: set<nat>, taken: int, waiting: Option<nat>, next: Option<nat>)
    requires AllAccounted(s, left, taken, waiting) && left <= more
    requires s.answered <= t.answered && s.failed <= t.failed && s.returned <= t.returned
    requires waiting.Some? ==> Accounted(t, more, next, waiting.value)
    ensures AllAccounted(t, more, taken, next)
  {
    forall id: nat | id < taken ensures Accounted(t, more, next, id) {
      assert Accounted(s, left, waiting, id);
    }
  }

  lemma Answer(s: Settled, started: seq<nat>, taken: int, id: nat, left: set<nat>)
    requires SettledOk(s, started, taken, Some(id), left) && id in started
    ensures SettledOk(s.(answered := s.answered + [id]), started, taken, None, left)
  {
    DistinctSnoc(s.answered, id);
    StillAccounted(s, s.(answered := s.answered + [id]), left, left, taken, Some(id), None);
  }

  lemma Fail(s: Settled, started: seq<nat>, taken: int, id: nat, left: set<nat>)
    requires SettledOk(s, started, taken, Some(id), left)
    ensures SettledOk(s.(failed := s.failed + [id]), started, taken, None, left)
  {
    DistinctSnoc(s.failed, id);
    StillAccounted(s, s.(failed := s.failed + [id]), left, left, taken, Some(id), None);
  }

  /** A request whose caller has gone need not be settled. */
  lemma Forget(s: Settled, started: seq<nat>, taken: int, id: nat, left: set<nat>)
    requires SettledOk(s, started, taken, Some(id), left) && id in left
    ensures SettledOk(s, started, taken, None, left)
  {
    StillAccounted(s, s, left, left, taken, Some(id), None);
  }

  lemma Leave(s: Settled, started: seq<nat>, taken: int, waiting: Option<nat>, left: set<nat>, id: nat)
    requires SettledOk(s, started, taken, waiting, left)
    ensures SettledOk(s, started, taken, waiting, left + {id})
  {
    StillAccounted(s, s, left, left + {id}, taken, waiting, waiting);
  }

  lemma Take(queue: seq<nat>, arrived: nat, s: Settled, started: seq<nat>, left: set<nat>)
    requires QueueOk(queue, arrived) && queue != [] && SettledOk(s, started, arrived - |queue|, None, left)
    ensures QueueOk(queue[1..], arrived) && AllBelow(started, queue[0])
    ensures SettledOk(s, started, arrived - |queue[1..]|, Some(queue[0]), left)
  {
    StillAccounted(s, s, left, left, arrived - |queue|, None, Some(queue[0]));
  }

  /** A request that was never taken up may be handed back, whoever is being waited for. */
  lemma ReturnOldest(queue: seq<nat>, arrived: nat, s: Settled, started: seq<nat>, waiting: Option<nat>, left: set<nat>)
    requires QueueOk(queue, arrived) && queue != [] && SettledOk(s, started, arrived - |queue|, waiting, left)
    ensures QueueOk(queue[1..], arrived)
    ensures SettledOk(s.(returned := s.returned + [queue[0]]), started, arrived - |queue[1..]|, waiting, left)
  {
    var t := s.(returned := s.returned + [queue[0]]);
    DistinctSnoc(s.returned, queue[0]);
    StillAccounted(s, t, left, left, arrived - |queue|, waiting, waiting);
    assert Accounted(t, left, waiting, queue[0]);
  }

  /** Requests that arrive one after the other. */
  function Numbers(from: nat, count: nat): (r: seq<nat>)
    ensures |r| == count && forall i :: 0 <= i < count ==> r[i] == from + i
  {
    seq(count, i requires 0 <= i => from + i)
  }

  lemma Begin(s: Settled, started: seq<nat>, taken: int, id: nat, left: set<nat>)
    requires SettledOk(s, started, taken, Some(id), left) && AllBelow(started, id)
    ensures SettledOk(s, started + [id], taken, Some(id), left)
  {
  }

  /** How a poll of the dispatcher ends: there is more to do, the transport is being shut down, it is over,
      or it is over with an error. */
  datatype Dispatched = Continues | ShuttingDown | Ended | Failed

  class Dispatcher {
    const conn: C.Conn
    var bodyTx: bool
    var bodyRx: bool
    var isClosing: bool
    var finished: bool

    // A server: the request whose response is awaited, and the number of the next one.
    var inFlight: Option<nat>
    var nextRequest: nat

    // A client: the request whose response is awaited, and those not yet taken up.
    var callback: Option<nat>
    /** The requests whose callers have gone away. */
    var left: set<nat>
    var rxClosed: bool
    var queue: seq<nat>
    var arrived: nat
    var settled: Settled

    constructor (conn: C.Conn)
      requires conn.Valid() && conn.started == conn.heard == [] && conn.open == None && !conn.CanReadBody()
      ensures Valid() && this.conn == conn && !finished && settled == NONE_SETTLED && queue == [] && arrived == 0
      ensures callback == None && !bodyTx && !isClosing && !rxClosed
    {
      this.conn := conn;
      bodyTx, bodyRx, isClosing, finished := false, false, false, false;
      inFlight, nextRequest := None, 0;
      callback, left, rxClosed, queue := None, {}, false, [];
      arrived, settled := 0, NONE_SETTLED;
    }

    ghost predicate Core()
      reads this, conn
    {
      && conn.Valid()
      && (if conn.server then callback == None && queue == [] && settled == NONE_SETTLED
          else inFlight == None && QueueOk(queue, arrived) && SettledOk(settled, conn.started, arrived - |queue|, callback, left))
      && (isClosing ==> conn.reading == C.Reading.Closed && conn.writing == C.Writing.Closed)
    }

    /** The request that a message is being exchanged for is the one the connection has open, and the
        requests that have been answered are those whose responses were read. */
    ghost predicate Linked()
      reads this, conn
    {
      && (!conn.server ==> settled.answered == conn.heard)
      && (inFlight.Some? ==> conn.open == inFlight)
      && Owes()
      && (callback.Some? ==> conn.open == callback && callback.value in conn.started)
    }

    /** A server that has read a request and not answered it has it in flight, unless it cannot answer any
        more. */
    ghost predicate Owes()
      reads this, conn
    {
      conn.server && conn.open.Some? ==> inFlight == conn.open || conn.writing == C.Writing.Closed
    }

    ghost predicate Valid()
      reads this, conn
    {
      && Core() && Linked()
      && (conn.CanReadBody() ==> bodyTx)
      && (rxClosed ==> isClosing)
    }

    /** A caller who still waits for a response can still get it. */
    ghost predicate Served()
      reads this, conn
    {
      Waiting() ==> conn.reading != C.Reading.Closed && !isClosing
    }

    /** Somebody waits for the response to the request in progress. */
    predicate Waiting()
      reads this
    {
      callback.Some? && callback.value !in left
    }

    /** ... and will: on a client nothing can be missed between two messages. */
    ghost predicate Calm()
      reads this, conn, conn.io
    {
      !conn.server ==> Served() && conn.Attentive()
    }

    /** Before it is polled a client need not have looked at the transport yet. */
    ghost predicate Awake()
      reads this, conn, conn.io
    {
      !conn.server ==>
        && Served()
        && (conn.Attentive() || (conn.reading == C.Reading.Init && conn.writing == C.Writing.Init && !bodyTx))
    }

    /** Bytes that nobody asked for are in the buffer of an idle client connection. */
    predicate Stray()
      reads this, conn, conn.io
    {
      && !conn.server && !isClosing && !bodyTx
      && conn.reading == C.Reading.Init && conn.writing == C.Writing.Init && conn.io.readBuf != []
    }

    twostate predicate Untouched()
      reads this, conn
    {
      && queue == old(queue) && callback == old(callback) && settled == old(settled) && rxClosed == old(rxClosed)
      && conn.log == old(conn.log)
    }

    // ----- Dispatch for Server and Client -----

    predicate ShouldPoll()
      reads this, conn
    {
      if conn.server then inFlight.Some? else callback.None?
    }

    /** Callers give a client more requests, unless all of them have gone. */
    method Arrive(count: nat)
      requires Core() && !conn.server
      modifies `queue, `arrived
      ensures Core() && (old(Valid()) ==> Valid())
      ensures if rxClosed then queue == old(queue) && arrived == old(arrived)
              else queue == old(queue) + Numbers(old(arrived), count) && arrived == old(arrived) + count
    {
      if !rxClosed {
        queue, arrived := queue + Numbers(arrived, count), arrived + count;
      }
    }

    /** They may do so at any time, and as often as they like. */
    method Meanwhile()
      requires Core()
      modifies `queue, `arrived
      ensures Core() && (old(Valid()) ==> Valid()) && old(queue) <= queue
      ensures arrived - |queue| == old(arrived) - |old(queue)|
    {
      if !conn.server {
        var count: nat :| 0 <= count;
        Arrive(count);
      }
    }

    /** `poll_canceled`: has the caller gone away? They may at any time, and do not come back. */
    method Canceled(id: nat) returns (r: bool)
      requires Core() && !conn.server
      modifies `left
      ensures Core() && (old(Valid()) ==> Valid()) && (r <==> id in left) && left in {old(left), old(left) + {id}}
    {
      var leaves: bool := *;
      if leaves {
        Leave(settled, conn.started, arrived - |queue|, callback, left, id);
        left := left + {id};
      }
      return id in left;
    }

    /** `poll_ready`: ready, not ready, or no longer interested. */
    method PollReady() returns (r: Poll<bool>)
      requires Valid()
      modifies `left
      ensures Valid()
      ensures r == Ready(true) ==> if conn.server then inFlight == None else callback.Some?
      ensures !conn.server ==> r == Ready(Waiting()) && (!old(Waiting()) ==> !Waiting())
    {
      if conn.server {
        var service: Poll<bool> := *;
        return if inFlight.Some? then Pending else service;
      }
      if callback.None? {
        return Ready(false);
      }
      var canceled := Canceled(callback.value);
      return Ready(!canceled);
    }

    /** `poll_msg`. A request that nobody waits for any more is dropped, and ends the connection. */
    method PollMsg() returns (r: Poll<Option<Result<nat, ()>>>)
      requires Valid() && ShouldPoll() && !isClosing && conn.CanWriteHead(true)
      modifies `inFlight, `callback, `left, `queue, `arrived, `rxClosed
      ensures Core()
      ensures r.Ready? && r.value.Some? && r.value.value.Ok? ==>
                && conn.MayWrite(WriteHead(r.value.value.value)) && !rxClosed
                && inFlight == None && callback == (if conn.server then None else Some(r.value.value.value))
                && (!conn.server ==> AllBelow(conn.started, r.value.value.value))
      ensures !(r.Ready? && r.value.Some? && r.value.value.Ok?) ==>
                inFlight == old(inFlight) && callback == old(callback)
      ensures rxClosed ==> r == Ready(None)
      ensures !conn.server ==> TakesOldest(r)
      ensures !conn.server && r.Pending? ==> arrived - |queue| == old(arrived) - |old(queue)|
    {
      if conn.server {
        var polled: Poll<bool> := *;
        match polled {
          case Pending => return Pending;
          case Ready(ok) =>
            if !ok {
              return Ready(Some(Err(())));
            }
            var id := inFlight.value;
            inFlight := None;
            return Ready(Some(Ok(id)));
        }
      }
      r := NextRequest();
    }

    /** A client has nothing to write only when its queue is empty, and it ends only when all callers have
        gone or the one whose turn it was has. */
    ghost predicate TakesOldest(r: Poll<Option<Result<nat, ()>>>)
      reads this
    {
      match r
      case Pending => queue == []
      case Ready(None) => rxClosed || (|queue| < arrived && arrived - |queue| - 1 in left)
      case Ready(Some(Ok(id))) => id == arrived - |queue| - 1 && id !in left
      case Ready(Some(Err(_))) => false
    }

    /** `poll_msg` of a client. */
    method NextRequest() returns (r: Poll<Option<Result<nat, ()>>>)
      requires Core() && !conn.server && callback == None && !rxClosed
      modifies `callback, `left, `queue, `arrived, `rxClosed
      ensures Core() && (rxClosed ==> r == Ready(None)) && TakesOldest(r)
      ensures if r.Ready? && r.value.Some? then
                && r.value.value.Ok? && !rxClosed && callback == Some(r.value.value.value)
                && AllBelow(conn.started, r.value.value.value)
              else callback == None
      ensures r.Pending? ==> arrived - |queue| == old(arrived) - |old(queue)|
    {
      Meanwhile();
      if queue != [] {
        var id := queue[0];
        TakeUp();
        var canceled := Canceled(id);
        if canceled {
          Abandon();
          return Ready(None);
        }
        return Ready(Some(Ok(id)));
      }
      rxClosed := *;
      return if rxClosed then Ready(None) else Pending;
    }

    /** The oldest request leaves the queue and is the one in progress. */
    method TakeUp()
      requires Core() && !conn.server && callback == None && queue != []
      modifies `callback, `queue
      ensures Core() && callback == Some(old(queue)[0]) && queue == old(queue)[1..] && AllBelow(conn.started, old(queue)[0])
    {
      Take(queue, arrived, settled, conn.started, left);
      queue, callback := queue[1..], Some(queue[0]);
    }

    /** The request in progress is dropped: its caller has gone. */
    method Abandon()
      requires Core() && !conn.server && callback.Some? && !Waiting()
      modifies `callback
      ensures Core() && callback == None
    {
      Forget(settled, conn.started, arrived - |queue|, callback.value, left);
      callback := None;
    }

    /** `recv_msg` with an error; the result says whether the error still has to be reported. A
        request in progress fails; one still in the queue is handed back. */
    method RecvError() returns (unreported: bool)
      requires Valid()
      modifies `callback, `queue, `settled
      ensures Valid() && (conn.server ==> unreported)
      ensures if conn.server then settled == old(settled)
              else if old(callback).Some? then
                && !unreported && callback == None
                && settled == old(settled).(failed := old(settled).failed + [old(callback).value])
              else if !rxClosed && old(queue) != [] then
                && !unreported && queue == old(queue)[1..]
                && settled == old(settled).(returned := old(settled).returned + [old(queue)[0]])
              else unreported && settled == old(settled)
      ensures !conn.server ==> callback == None
    {
      if conn.server {
        return true;
      }
      if callback.Some? {
        Fail(settled, conn.started, arrived - |queue|, callback.value, left);
        settled := settled.(failed := settled.failed + [callback.value]);
        callback := None;
        return false;
      } else if !rxClosed && queue != [] {
        HandBack();
        return false;
      }
      return true;
    }

    /** Hand the oldest queued request back. */
    method HandBack()
      requires Valid() && !conn.server && queue != []
      modifies `queue, `settled
      ensures Valid() && queue == old(queue)[1..] && settled == old(settled).(returned := old(settled).returned + [old(queue)[0]])
    {
      ReturnOldest(queue, arrived, settled, conn.started, callback, left);
      settled := settled.(returned := settled.returned + [queue[0]]);
      queue := queue[1..];
    }

    // ----- the dispatcher -----

    method Close()
      requires Core() && Linked() && (conn.CanReadBody() ==> bodyTx)
      modifies `isClosing, conn
      ensures Valid() && isClosing && conn.keepAlive == C.Disabled
      ensures Extends(old(conn.log), conn.log)
    {
      isClosing := true;
      conn.CloseRead();
      ghost var middle := conn.log;
      conn.CloseWrite();
      ExtendsTransitive(old(conn.log), middle, conn.log);
    }

    /** `poll_read_head`. */
    method PollReadHead() returns (r: Poll<Result<(), ()>>)
      requires Valid() && !isClosing && conn.CanReadHead() && Awake()
      modifies this, conn, conn.io
      ensures Valid() && finished == old(finished) && Extends(old(conn.log), conn.log)
      ensures r != Ready(Err(())) ==> Calm()
      // A message was received, or nobody wants one any more and the connection is closed.
      ensures r == Ready(Ok(())) ==> isClosing || if conn.server then inFlight.Some? else callback == None
    {
      var ready := PollReady();
      if ready.Pending? {
        return Pending;
      } else if !ready.value {
        Close();
        return Ready(Ok(()));
      }
      r := ReadOneHead(if conn.server then nextRequest else callback.value);
    }

    /** Someone waits for a message: read its head, or see that there is none. */
    method ReadOneHead(id: nat) returns (r: Poll<Result<(), ()>>)
      requires Valid() && !isClosing && conn.CanReadHead() && (if conn.server then inFlight == None else callback == Some(id))
      modifies `bodyTx, `inFlight, `nextRequest, `callback, `settled, `queue, `arrived, `isClosing, conn, conn.io
      ensures Valid() && Extends(old(conn.log), conn.log)
      ensures r != Ready(Err(())) ==> Calm()
      ensures r == Ready(Ok(())) ==> isClosing || if conn.server then inFlight.Some? else callback == None
    {
      var head := conn.PollReadHead(id);
      if head.HeadPending? {
        return Pending;
      } else if head.Head? {
        RecvMessage(id, head.decode);
        return Ready(Ok(()));
      }
      ghost var middle := conn.log;
      r := NoHead(head.HeadError?);
      ExtendsTransitive(old(conn.log), middle, conn.log);
    }

    /** The read side has ended, with an error for someone or without. */
    method NoHead(isError: bool) returns (r: Poll<Result<(), ()>>)
      requires Valid() && !conn.CanReadBody() && (isError || conn.server)
      modifies `queue, `arrived, `callback, `settled, `isClosing, conn
      ensures Valid() && Extends(old(conn.log), conn.log)
      ensures r != Ready(Err(())) ==> isClosing && (!conn.server ==> callback == None)
    {
      Meanwhile();
      if isError {
        var unreported := RecvError();
        if unreported {
          return Ready(Err(()));
        }
      }
      Close();
      return Ready(Ok(()));
    }

    /** `recv_msg` with a message: a server calls its service, a client answers its caller. */
    method RecvMessage(id: nat, decode: DecodedLength)
      requires Core() && !isClosing && !rxClosed
      requires if conn.server then inFlight == None && conn.open == Some(id)
               else conn.open == None && callback == Some(id) && id in conn.started
      requires decode == ZERO ==> !conn.CanReadBody()
      requires !conn.server ==> conn.heard == settled.answered + [id]
      modifies `bodyTx, `inFlight, `nextRequest, `callback, `settled
      ensures Valid()
      ensures if conn.server then inFlight == Some(id) && settled == old(settled)
              else callback == None && settled == old(settled).(answered := old(settled).answered + [id])
    {
      if decode != ZERO {
        bodyTx := true;
      }
      if conn.server {
        inFlight, nextRequest := Some(id), nextRequest + 1;
      } else {
        Answer(settled, conn.started, arrived - |queue|, id, left);
        settled, callback := settled.(answered := settled.answered + [id]), None;
      }
    }

    /** `poll_read`; the flag says whether the connection ends here with an error. */
    method PollRead() returns (failed: bool)
      requires Valid() && Awake()
      modifies this, conn, conn.io
      ensures Valid() && finished == old(finished) && Extends(old(conn.log), conn.log)
      ensures !failed ==> Calm()
      ensures old(Stray()) ==> failed && Untouched()
    {
      var turns: nat :| turns > 0;
      var goOn := true;
      failed := false;
      while turns > 0 && goOn && !failed && !isClosing
        invariant old(Stray()) ==> Untouched() && (failed || (Stray() && turns > 0 && goOn))
        invariant Valid() && finished == old(finished) && Extends(old(conn.log), conn.log)
        invariant turns > 0 && goOn && !failed ==> Awake()
        invariant turns == 0 || !goOn || isClosing ==> failed || Calm()
        decreases turns
      {
        turns := turns - 1;
        ghost var before := conn.log;
        goOn, failed := ReadTurn();
        ExtendsTransitive(old(conn.log), before, conn.log);
      }
    }

    /** One turn of the loop: a head, a piece of a body, or a look at a quiet connection. Afterwards a
        client has looked at the transport. */
    method ReadTurn() returns (goOn: bool, failed: bool)
      requires Valid() && !isClosing && Awake()
      modifies this, conn, conn.io
      ensures Valid() && finished == old(finished) && Extends(old(conn.log), conn.log)
      ensures !failed ==> Calm()
      ensures old(Stray()) ==> failed && Untouched()
    {
      goOn, failed := false, false;
      if conn.CanReadHead() {
        var r := PollReadHead();
        goOn, failed := r == Ready(Ok(())), r == Ready(Err(()));
      } else if bodyTx {
        goOn := PollReadBody();
      } else {
        failed := conn.PollReadKeepAlive();
      }
    }

    /** The part of `poll_read` that moves a body to its receiver, while the sender for it is there. */
    method PollReadBody() returns (goOn: bool)
      requires Valid() && bodyTx && !isClosing && !conn.CanReadHead() && Calm()
      modifies `bodyTx, conn, conn.io
      ensures Valid() && Extends(old(conn.log), conn.log) && Calm()
    {
      bodyTx := false;
      if !conn.CanReadBody() {
        return true;
      }
      var ready: Poll<bool> := *;
      if ready == Pending {
        bodyTx := true;
        return false;
      } else if ready == Ready(false) {
        conn.PollDrainOrCloseRead();
        return true;
      }
      goOn := MoveBody();
    }

    /** The receiver is ready: read the next piece of the body and pass it on. */
    method MoveBody() returns (goOn: bool)
      requires Core() && Linked() && (rxClosed ==> isClosing) && conn.CanReadBody() && !bodyTx
      modifies `bodyTx, conn, conn.io
      ensures Valid() && Extends(old(conn.log), conn.log) && Calm()
    {
      var body, _ := conn.PollReadBody();
      match body {
        case Data(chunk) =>
          var accepted: bool := *;
          if accepted {
            bodyTx := true;
          } else {
            ghost var middle := conn.log;
            Unwanted();
            ExtendsTransitive(old(conn.log), middle, conn.log);
          }
          return true;
        case BodyEnd => return true;
        case BodyPending =>
          bodyTx := true;
          return false;
        case BodyError => return true;
      }
    }

    /** The receiver of the body has gone: if there is more of it, stop reading. */
    method Unwanted()
      requires Core() && Linked() && (rxClosed ==> isClosing) && (!conn.server ==> callback == None && conn.Attentive())
      modifies conn
      ensures Valid() && Extends(old(conn.log), conn.log) && Calm()
    {
      if conn.CanReadBody() {
        conn.CloseRead();
      }
    }

    /** `poll_flush`; false when it did not finish. */
    method PollFlush() returns (r: Poll<bool>)
      requires Valid() && Calm()
      modifies conn, conn.io
      ensures Valid() && Extends(old(conn.log), conn.log) && Calm()
      ensures (old(conn.notifyRead) ==> conn.notifyRead) && (r == Ready(true) ==> conn.Noticed())
    {
      r := conn.PollFlush();
    }

    /** `poll_write`. */
    method PollWrite() returns (failed: bool)
      requires Valid() && Calm()
      modifies this, conn, conn.io
      ensures Valid() && finished == old(finished) && Extends(old(conn.log), conn.log) && Calm()
    {
      var turns: nat := *;
      failed := false;
      var goOn := true;
      while turns > 0 && goOn && !isClosing
        invariant Valid() && finished == old(finished) && Extends(old(conn.log), conn.log) && Calm()
        decreases turns
      {
        turns := turns - 1;
        ghost var before := conn.log;
        goOn, failed := WriteTurn();
        ExtendsTransitive(old(conn.log), before, conn.log);
      }
    }

    /** One turn of the loop: the next message, a flush, or a piece of a body. */
    method WriteTurn() returns (goOn: bool, failed: bool)
      requires Valid() && Calm() && !isClosing
      modifies this, conn, conn.io
      ensures Valid() && finished == old(finished) && Extends(old(conn.log), conn.log) && Calm()
      ensures failed ==> !goOn
    {
      goOn, failed := false, false;
      var canHeadersBuf: bool, canBuffer: bool := *, *;
      if !bodyRx && conn.CanWriteHead(canHeadersBuf) && ShouldPoll() {
        goOn, failed := WriteMessage();
      } else if !canBuffer {
        var r := PollFlush();
        goOn, failed := r == Ready(true), r == Ready(false);
      } else if bodyRx {
        var item: Poll<Option<Result<seq<byte>, ()>>>, eos: bool := *, *;
        goOn, failed := WriteBody(item, eos);
      }
    }

    /** The part of `poll_write` that takes up the next message and writes its head. */
    method WriteMessage() returns (goOn: bool, failed: bool)
      requires Valid() && !isClosing && conn.CanWriteHead(true) && ShouldPoll() && !bodyRx && Calm()
      modifies this, conn
      ensures Valid() && finished == old(finished) && Extends(old(conn.log), conn.log) && Calm()
      ensures failed ==> !goOn
      // A client that goes on without a request has not taken one; otherwise its caller had gone, and it closes.
      ensures !conn.server && callback == None && !isClosing ==> queue == [] && arrived == old(arrived) - |old(queue)|
    {
      var msg := PollMsg();
      match msg {
        case Pending => return false, false;
        case Ready(None) =>
          Close();
          return false, false;
        case Ready(Some(Err(_))) => return false, true;
        case Ready(Some(Ok(id))) =>
          goOn := WriteHeadOf(id);
          return goOn, false;
      }
    }

    /** The next message to write has been taken up, and nothing stands in its way. */
    ghost predicate MayStart(id: nat)
      reads this, conn
    {
      && Core() && !isClosing && !rxClosed && conn.MayWrite(WriteHead(id)) && (conn.CanReadBody() ==> bodyTx)
      && (!conn.server ==> settled.answered == conn.heard)
      && inFlight == None && callback == (if conn.server then None else Some(id))
      && (!conn.server ==> AllBelow(conn.started, id))
    }

    /** A message whose body is there in full is written at once; otherwise its body, if it has one,
        is written as it comes. */
    method WriteHeadOf(id: nat) returns (goOn: bool)
      requires MayStart(id)
      modifies `bodyRx, conn
      ensures Valid() && Extends(old(conn.log), conn.log)
      ensures conn.reading == old(conn.reading)
    {
      var full: Option<seq<byte>> := *;
      if full.Some? && 0 < |full.value| < U64 {
        WriteAtOnce(id, full.value);
        return false;
      }
      bodyRx := *;
      WriteFirst(id);
      return true;
    }

    method WriteAtOnce(id: nat, body: seq<byte>)
      requires MayStart(id) && 0 < |body| < U64
      modifies conn
      ensures Valid() && Extends(old(conn.log), conn.log)
      ensures conn.reading == old(conn.reading)
    {
      if !conn.server {
        Begin(settled, conn.started, arrived - |queue|, id, left);
      }
      var _, _ := conn.WriteFullMsg(WriteHead(id), body);
      assert !conn.server ==> conn.started == old(conn.started) + [id];
    }

    method WriteFirst(id: nat)
      requires MayStart(id)
      modifies conn
      ensures Valid() && Extends(old(conn.log), conn.log)
      ensures conn.reading == old(conn.reading)
    {
      if !conn.server {
        Begin(settled, conn.started, arrived - |queue|, id, left);
      }
      var _ := conn.WriteHead(WriteHead(id));
      assert !conn.server ==> conn.started == old(conn.started) + [id];
    }

    /** The part of `poll_write` that moves one piece of a body, if there is one, to the connection. */
    method WriteBody(item: Poll<Option<Result<seq<byte>, ()>>>, eos: bool) returns (goOn: bool, failed: bool)
      requires Valid() && !isClosing && bodyRx
      modifies `bodyRx, conn
      ensures Valid() && Extends(old(conn.log), conn.log)
      ensures conn.reading == old(conn.reading)
      ensures failed ==> !goOn
      ensures !old(conn.CanWriteBody()) ==> !bodyRx && goOn && conn.writing == old(conn.writing)
      ensures old(conn.CanWriteBody()) ==>
                match item
                case Pending => bodyRx && !goOn && !failed && conn.writing == old(conn.writing)
                case Ready(None) => !bodyRx && !conn.CanWriteBody() && (failed <==> old(conn.writing).kind.Length?)
                case Ready(Some(Err(_))) => !bodyRx && failed
                case Ready(Some(Ok(chunk))) =>
                  |chunk| < U64 ==>
                    && conn.bodyPayload == old(conn.bodyPayload) + C.Payload(old(conn.writing).kind, chunk)
                    && bodyRx == !eos && (eos ==> !conn.CanWriteBody())
    {
      if !conn.CanWriteBody() {
        bodyRx := false;
        return true, false;
      }
      match item {
        case Pending => return false, false;
        case Ready(None) =>
          goOn := EndWith([]);
          return goOn, !goOn;
        case Ready(Some(Err(_))) =>
          bodyRx := false;
          return false, true;
        case Ready(Some(Ok(chunk))) =>
          if |chunk| >= U64 {
            return false, false;
          }
          goOn, failed := WriteChunk(chunk, eos);
      }
    }

    method WriteChunk(chunk: seq<byte>, eos: bool) returns (goOn: bool, failed: bool)
      requires Valid() && bodyRx && conn.CanWriteBody() && |chunk| < U64
      modifies `bodyRx, conn
      ensures Valid() && Extends(old(conn.log), conn.log)
      ensures conn.reading == old(conn.reading)
      ensures failed ==> !goOn
      ensures conn.bodyPayload == old(conn.bodyPayload) + C.Payload(old(conn.writing).kind, chunk)
      ensures eos ==> !bodyRx && !conn.CanWriteBody()
      ensures bodyRx == !eos
    {
      if eos {
        goOn := EndWith(chunk);
        return goOn, !goOn;
      } else if chunk != [] {
        var _ := conn.WriteBody(chunk);
      }
      return true, false;
    }

    /** The last buffer of a body, which may be empty. */
    method EndWith(chunk: seq<byte>) returns (ok: bool)
      requires Valid() && bodyRx && conn.CanWriteBody() && |chunk| < U64
      modifies `bodyRx, conn
      ensures Valid() && !bodyRx && Extends(old(conn.log), conn.log)
      ensures conn.reading == old(conn.reading)
      ensures conn.bodyPayload == old(conn.bodyPayload) + C.Payload(old(conn.writing).kind, chunk)
      ensures !conn.CanWriteBody()
      ensures ok <==> chunk != [] || !old(conn.writing).kind.Length?
    {
      bodyRx := false;
      if chunk == [] {
        var done, _ := conn.EndBody();
        return done;
      }
      var _ := conn.WriteBodyAndEnd(chunk);
      ok := true;
    }

    /** Nothing is forgotten while the dispatcher waits: between messages it waits for the transport. */
    ghost predicate AtRest()
      reads conn, conn.io
    {
      conn.reading == C.Reading.Init && !conn.writing.Body? ==> conn.io.readBlocked
    }

    /** `poll_loop`: at most 16 rounds of reading, writing and flushing. It asks to be polled again, or is
        at rest if everything could be flushed. */
    method PollLoop() returns (failed: bool, again: bool, flushed: bool)
      requires Valid() && Awake()
      modifies this, conn, conn.io
      ensures Valid() && finished == old(finished) && Extends(old(conn.log), conn.log)
      ensures !failed ==> Calm() && (again || !flushed || AtRest())
      ensures old(Stray()) ==> failed && Untouched()
    {
      again, flushed := true, false;
      for i := 0 to 16
        invariant old(Stray()) ==> i == 0 && Stray() && Untouched()
        invariant Valid() && finished == old(finished) && Extends(old(conn.log), conn.log) && again
        invariant Awake() && (i > 0 ==> Calm())
      {
        ghost var before := conn.log;
        failed, again, flushed := Round();
        ExtendsTransitive(old(conn.log), before, conn.log);
        if failed || !again {
          return;
        }
      }
      failed := false;
    }

    method Round() returns (failed: bool, again: bool, flushed: bool)
      requires Valid() && Awake()
      modifies this, conn, conn.io
      ensures Valid() && finished == old(finished) && Extends(old(conn.log), conn.log)
      ensures !failed ==> Calm() && (again || !flushed || AtRest())
      ensures old(Stray()) ==> failed && Untouched()
    {
      failed := PollRead();
      if failed {
        return true, false, false;
      }
      ghost var h1 := conn.log;
      failed := PollWrite();
      ExtendsTransitive(old(conn.log), h1, conn.log);
      if failed {
        return true, false, false;
      }
      ghost var h2 := conn.log;
      failed, again, flushed := FlushAndLook();
      ExtendsTransitive(old(conn.log), h2, conn.log);
    }

    /** Flush, and see whether there is more to read. */
    method FlushAndLook() returns (failed: bool, again: bool, flushed: bool)
      requires Valid() && Calm()
      modifies conn, conn.io
      ensures Valid() && Extends(old(conn.log), conn.log) && Calm()
      ensures !failed && old(conn.notifyRead) ==> again
      ensures !failed ==> again || !flushed || AtRest()
    {
      var r := PollFlush();
      if r == Ready(false) {
        return true, false, false;
      }
      again := conn.notifyRead;
      conn.notifyRead := false;
      return false, again, r == Ready(true);
    }

    predicate IsDone()
      reads this, conn
    {
      isClosing ||
      (conn.reading == C.Reading.Closed &&
       (!conn.server || conn.writing == C.Writing.Closed || (!ShouldPoll() && !bodyRx)))
    }

    /** A dispatcher that was closed may end, and so may a client that cannot read any more. A server ends
        when it cannot read, and cannot write or has nothing to: no request is being answered and no
        body is being written. */
    ghost predicate MayEnd()
      reads this, conn
    {
      || isClosing
      || (conn.reading == C.Reading.Closed && !conn.server)
      || (conn.reading == C.Reading.Closed && conn.writing == C.Writing.Closed)
      || (conn.reading == C.Reading.Closed && inFlight == None && !bodyRx)
    }

    /** One poll of the dispatcher (`poll_catch`). If that is the last, nobody still waits for a response:
        the request in progress, if any, was settled or given up by its caller. */
    method PollOnce() returns (r: Dispatched)
      requires Valid() && !finished && Awake()
      modifies this, conn, conn.io
      ensures Valid() && Extends(old(conn.log), conn.log)
      ensures finished <==> r.Ended? || r.Failed?
      ensures !r.Failed? ==> (r.Continues? <==> !MayEnd())
      ensures if finished then !conn.server ==> !Waiting() else Awake()
      ensures old(Stray()) && old(callback) == None && old(queue) != [] && !old(rxClosed) ==>
                && finished && conn.log == old(conn.log)
                && settled == old(settled).(returned := old(settled).returned + [old(queue)[0]])
    {
      var failed, _, _ := PollLoop();
      r := Continues;
      if !failed && IsDone() {
        r := Shutdown();
        failed := r.Failed?;
      }
      if failed {
        Meanwhile();
        GiveUp();
        r := Failed;
      }
    }

    /** An error ends the dispatcher; whoever waits is told. */
    method GiveUp()
      requires Valid()
      modifies `finished, `callback, `queue, `settled
      ensures Valid() && finished && settled.answered == old(settled).answered && (!conn.server ==> callback == None)
      ensures !conn.server && old(callback) == None && old(queue) != [] && !rxClosed ==>
                settled == old(settled).(returned := old(settled).returned + [old(queue)[0]])
      ensures !conn.server && old(callback).Some? ==> settled == old(settled).(failed := old(settled).failed + [old(callback).value])
    {
      var _ := RecvError();
      finished := true;
    }

    /** The connection is done: shut the transport down, and take up an error it has kept. */
    method Shutdown() returns (r: Dispatched)
      requires Valid() && !finished
      modifies `finished, conn`error
      ensures Valid() && (finished <==> !r.ShuttingDown?) && !r.Continues?
      ensures r.Ended? ==> !old(conn.error)
    {
      var shutDown: Poll<bool> := *;
      if shutDown == Pending {
        return ShuttingDown;
      }
      finished := true;
      if shutDown == Ready(false) {
        return Failed;
      }
      var kept := conn.TakeError();
      return if kept then Failed else Ended;
    }

    /** `disable_keep_alive`: a server is asked to shut down gracefully. */
    method DisableKeepAlive()
      requires Valid() && conn.server
      modifies `isClosing, conn
      ensures Valid() && conn.keepAlive == C.Disabled && Extends(old(conn.log), conn.log)
      ensures conn.writing == C.Writing.Closed ==> isClosing
      ensures conn.writing == C.Writing.Closed <==> old(conn.writing) == C.Writing.Closed || old(conn.keepAlive) == C.Idle
    {
      conn.DisableKeepAlive();
      ghost var middle := conn.log;
      if conn.writing == C.Writing.Closed {
        Close();
        ExtendsTransitive(old(conn.log), middle, conn.log);
      }
    }

    /** The dispatcher goes away: requests in the queue are handed back. A request in progress is just
        dropped, and a caller who still waits for it never hears of it. */
    method Drop() returns (abandoned: Option<nat>)
      requires Valid()
      modifies `finished, `callback, `queue, `settled
      ensures finished && queue == [] && callback == None
      ensures settled == old(settled).(returned := old(settled).returned + old(queue))
      ensures abandoned == if old(Waiting()) then old(callback) else None
      ensures !conn.server ==> SettledOk(settled, conn.started, arrived, abandoned, left)
      ensures conn.Valid() && (!conn.server ==> settled.answered == conn.heard) && (conn.server ==> settled == NONE_SETTLED)
    {
      finished := true;
      abandoned := if Waiting() then callback else None;
      if callback.Some? && !Waiting() {
        Abandon();
      }
      ReturnAll();
      callback := None;
    }

    /** Everything that still waits is handed back, in order. */
    method ReturnAll()
      requires Valid()
      modifies `queue, `settled
      ensures Valid() && queue == [] && settled == old(settled).(returned := old(settled).returned + old(queue))
    {
      while queue != []
        invariant Valid() && settled == old(settled).(returned := settled.returned)
        invariant settled.returned + queue == old(settled).returned + old(queue)
        decreases |queue|
      {
        HandBack();
      }
    }
  }

  /** Any run of a connection, server or client, from its beginning through any number of polls to
      the moment it is dropped, with requests arriving, callers leaving and a graceful shutdown of a server
      at any time. Exchanges do not overlap and are answered in order; once keep-alive is given up the
      connection winds down; no request is started or settled twice, one that is handed back was never
      started, and the requests settled with a response are, in order, those whose responses were read.
      Every request that arrived at a client is settled, unless its caller had gone; one request more may
      be left without an answer, but only if the dispatcher is dropped before it has ended. A server that
      ends by itself and without an error has answered every request it read, unless its write side was
      closed. */
  method Run(server: bool, allowHalfClose: bool, wire: seq<byte>, polls: nat)
    returns (settled: Settled, arrived: nat, left: set<nat>, abandoned: Option<nat>, end: Dispatched, history: History)
    ensures After(server, history).Some? && WindsDown(history)
    ensures server ==> ServerOrdered(history)
    ensures server && end.Ended? && Count(history, WriteClosed) == 0 ==> ReadIds(history) == WriteIds(history)
    ensures !server ==> ClientOrdered(history) && settled.answered == ReadIds(history) && Increasing(WriteIds(history))
    ensures forall id :: id in settled.returned ==> id !in WriteIds(history)
    ensures forall id :: id in settled.answered ==> id in WriteIds(history)
    ensures SettledOnce(settled)
    ensures !server ==> AllAccounted(settled, left, arrived, abandoned)
    ensures abandoned.Some? ==> !server && !end.Ended? && !end.Failed? && !settled.Has(abandoned.value) && abandoned.value !in left
  {
    var io := new Buffered(wire);
    var conn := new C.Conn(server, allowHalfClose, io);
    var d := new Dispatcher(conn);
    end := Drive(d, polls);
    settled, abandoned := Finish(d);
    return settled, d.arrived, d.left, abandoned, end, conn.log;
  }

  /** The middle of a run: polls, until the dispatcher has ended or nobody polls it any more. */
  method Drive(d: Dispatcher, polls: nat) returns (r: Dispatched)
    requires d.Valid() && d.Awake() && !d.finished
    modifies d, d.conn, d.conn.io
    ensures d.Valid() && (d.finished <==> r.Ended? || r.Failed?) && (d.finished && !d.conn.server ==> !d.Waiting())
    ensures d.conn.server && r.Ended? && Count(d.conn.log, WriteClosed) == 0 ==> ReadIds(d.conn.log) == WriteIds(d.conn.log)
  {
    var i := 0;
    r := Continues;
    while i < polls && !d.finished
      invariant d.Valid() && (d.finished <==> r.Ended? || r.Failed?) && (r.Ended? ==> d.MayEnd())
      invariant if d.finished then !d.conn.server ==> !d.Waiting() else d.Awake()
    {
      var shutDown: bool := *;
      if shutDown && d.conn.server {
        d.DisableKeepAlive();
      }
      d.Meanwhile();
      r := d.PollOnce();
      i := i + 1;
    }
    if r.Ended? && d.conn.server {
      AllAnswered(d);
    }
    d.Meanwhile();
  }

  /** A server that may end has answered every request, unless it cannot write any more. */
  lemma AllAnswered(d: Dispatcher)
    requires d.Valid() && d.conn.server && d.MayEnd()
    ensures Count(d.conn.log, WriteClosed) == 0 ==> ReadIds(d.conn.log) == WriteIds(d.conn.log)
  {
    if d.conn.writing == C.Writing.Closed {
      WriteClosedIsMarked(true, d.conn.log);
    } else {
      NothingOwed(d.conn.log);
    }
  }

  /** The end of a run. */
  method Finish(d: Dispatcher) returns (settled: Settled, abandoned: Option<nat>)
    requires d.Valid()
    modifies d`finished, d`callback, d`queue, d`settled
    ensures var history, server := d.conn.log, d.conn.server;
            && After(server, history).Some? && WindsDown(history)
            && (server ==> ServerOrdered(history))
            && (!server ==> ClientOrdered(history) && settled.answered == ReadIds(history) && Increasing(WriteIds(history)))
            && (forall id :: id in settled.returned ==> id !in WriteIds(history))
            && (forall id :: id in settled.answered ==> id in WriteIds(history))
    ensures SettledOnce(settled) && (!d.conn.server ==> AllAccounted(settled, d.left, d.arrived, abandoned))
    ensures abandoned == if old(d.Waiting()) then old(d.callback) else None
    ensures abandoned.Some? ==> !d.conn.server && !settled.Has(abandoned.value)
  {
    abandoned := d.Drop();
    settled := d.settled;
    AcceptedWindsDown(d.conn.server, d.conn.log);
    if d.conn.server {
      AcceptedServerOrdered(d.conn.log);
    } else {
      AcceptedClientOrdered(d.conn.log);
    }
  }

  /** A client connection with one request in its queue and, in its buffer, a byte that nobody asked for,
      as `maybe_notify` can leave it on an idle client; here no exchange came before. */
  method StrayByte(stray: byte) returns (d: Dispatcher)
    ensures fresh(d) && fresh(d.conn) && fresh(d.conn.io) && d.Valid() && d.Awake() && d.Stray()
    ensures d.queue == [0] && d.callback == None && d.settled == NONE_SETTLED && !d.rxClosed && !d.finished && d.conn.log == Start
  {
    var io := new Buffered([]);
    io.readBuf := [stray];
    var conn := new C.Conn(false, false, io);
    d := new Dispatcher(conn);
    d.Arrive(1);
  }

  /** A poll of it hands the request back, and does not write its head. */
  method HandedBack(stray: byte) returns (settled: Settled, history: History)
    ensures settled == Settled([], [], [0]) && history == Start
  {
    var d := StrayByte(stray);
    var _ := d.PollOnce();
    return d.settled, d.conn.log;
  }
}
