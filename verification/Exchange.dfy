/** Histories of an HTTP/1 connection: what happens on it, in order, and what hyper promises about
    that order (section 6.3 of RFC 7230). A server reads the heads of requests and writes the heads
    of responses; a client writes requests and reads responses. Heads carry the number of the
    exchange they belong to. */
module Exchange {
  import opened Bytes

  datatype Event =
    | ReadHead(id: nat)
    | ReadDone                // the message being read was read to its end
    | ReadClosed
    | WriteHead(id: nat)
    | ErrorHead               // a response a server makes up by itself
    | WriteDone               // the message being written was written to its end
    | WriteClosed
    | Reset                   // both directions are ready for another exchange
    | Disable                 // keep-alive is given up

  datatype History = Start | Then(past: History, last: Event)

  /** One history continues another. */
  ghost predicate Extends(a: History, b: History) {
    a == b || (b.Then? && Extends(a, b.past))
  }

  lemma {:induction false} ExtendsTransitive(a: History, b: History, c: History)
    requires Extends(a, b) && Extends(b, c)
    ensures Extends(a, c)
    decreases c
  {
    if b != c {
      ExtendsTransitive(a, b, c.past);
    }
  }

  function ReadIds(h: History): seq<nat> {
    match h
    case Start => []
    case Then(past, e) => ReadIds(past) + if e.ReadHead? then [e.id] else []
  }

  function WriteIds(h: History): seq<nat> {
    match h
    case Start => []
    case Then(past, e) => WriteIds(past) + if e.WriteHead? then [e.id] else []
  }

  function Count(h: History, e: Event): nat {
    match h
    case Start => 0
    case Then(past, last) => Count(past, e) + if last == e then 1 else 0
  }

  /** Heads written, error replies included. */
  function HeadsWritten(h: History): nat {
    |WriteIds(h)| + Count(h, ErrorHead)
  }

  // ----- what is promised of a history -----

  /** Every exchange begun so far is over: as many complete messages in each direction as heads, the
      connection was reset after each, and nothing has been closed. */
  ghost predicate Settled(h: History) {
    && ReadIds(h) == WriteIds(h)
    && |ReadIds(h)| == Count(h, ReadDone) == Count(h, WriteDone) == Count(h, Reset)
    && Count(h, ReadClosed) == Count(h, WriteClosed) == Count(h, ErrorHead) == 0
  }

  /** A server reads a request only when every earlier one has been read and answered completely; it
      answers each request once, in order; and the only response that answers nothing is a single
      error reply, made after the read side has closed, and the last head of all. */
  ghost predicate ServerOrdered(h: History) {
    match h
    case Start => true
    case Then(past, e) =>
      && ServerOrdered(past)
      && match e
         case ReadHead(_) => Settled(past)
         case WriteHead(id) => ReadIds(past) == WriteIds(past) + [id] && Count(past, ErrorHead) == 0
         case ErrorHead => ReadIds(past) == WriteIds(past) && Count(past, ReadClosed) > 0 && Count(past, ErrorHead) == 0
         case _ => true
  }

  /** A client sends a request only when every earlier one has been sent and answered completely, and
      takes each response as the answer to the one request that has none. */
  ghost predicate ClientOrdered(h: History) {
    match h
    case Start => true
    case Then(past, e) =>
      && ClientOrdered(past)
      && match e
         case WriteHead(_) => Settled(past)
         case ReadHead(id) => WriteIds(past) == ReadIds(past) + [id]
         case ErrorHead => false
         case _ => true
  }

  /** The part of a history since keep-alive was first given up. */
  function SinceDisabled(h: History): History {
    match h
    case Start => Start
    case Then(past, e) =>
      if Count(past, Disable) > 0 then Then(SinceDisabled(past), e) else Start
  }

  /** Once keep-alive is given up the connection is never reset, and at most one more head is read
      and one more written. */
  ghost predicate WindsDown(h: History) {
    var since := SinceDisabled(h);
    Count(since, Reset) == 0 && |ReadIds(since)| <= 1 && HeadsWritten(since) <= 1
  }

  // ----- an automaton that accepts only such histories -----

  datatype Side = Idle | Busy | Done | Closed

  /** `open`: the exchange whose first head has been seen but not its second. */
  datatype Phase = Phase(read: Side, write: Side, disabled: bool, open: Option<nat>)

  const START: Phase := Phase(Idle, Idle, false, None)

  function Next(server: bool, p: Phase, e: Event): Option<Phase> {
    match e
    case ReadHead(id) =>
      if p.read == Idle && (if server then p.write == Idle && p.open == None else p.write != Idle && p.open == Some(id))
      then Some(p.(read := Busy, open := if server then Some(id) else None))
      else None
    case WriteHead(id) =>
      if p.write == Idle && (if server then p.read != Idle && p.open == Some(id) else p.read == Idle && p.open == None)
      then Some(p.(write := Busy, open := if server then None else Some(id)))
      else None
    case ErrorHead =>
      if server && p.write == Idle && p.read == Closed && p.open == None then Some(p.(write := Busy)) else None
    case ReadDone => if p.read == Busy then Some(p.(read := Done)) else None
    case WriteDone => if p.write == Busy then Some(p.(write := Done)) else None
    case ReadClosed => Some(p.(read := Closed))
    case WriteClosed => Some(p.(write := Closed))
    case Reset =>
      if p.read == Done && p.write == Done && !p.disabled && p.open == None
      then Some(p.(read := Idle, write := Idle))
      else None
    case Disable => Some(p.(disabled := true))
  }

  function After(server: bool, h: History): Option<Phase> {
    match h
    case Start => Some(START)
    case Then(past, e) =>
      var p := After(server, past);
      if p.None? then None else Next(server, p.value, e)
  }

  function OpenIds(p: Phase): seq<nat> {
    if p.open.Some? then [p.open.value] else []
  }

  /** How the counts of a history depend on where it has led: the heads, ... */
  ghost predicate TallyIds(server: bool, h: History, p: Phase) {
    if server then ReadIds(h) == WriteIds(h) + OpenIds(p) else WriteIds(h) == ReadIds(h) + OpenIds(p)
  }

  /** ... the messages in each direction against the number of resets, ... */
  predicate SideTally(side: Side, heads: nat, done: nat, n: nat) {
    && n <= heads <= n + 1 && n <= done <= n + 1
    && (side == Idle ==> heads == done == n)
    && (side == Busy ==> heads == n + 1 && done == n)
    && (side == Done ==> heads == done == n + 1)
  }

  ghost predicate TallyCounts(h: History, p: Phase) {
    && SideTally(p.read, |ReadIds(h)|, Count(h, ReadDone), Count(h, Reset))
    && SideTally(p.write, HeadsWritten(h), Count(h, WriteDone), Count(h, Reset))
  }

  /** ... and what can have happened at all. */
  ghost predicate TallyMarks(server: bool, h: History, p: Phase) {
    && (Count(h, ErrorHead) > 0 ==> server && p.open == None && p.read == Closed && p.write != Idle)
    && (Count(h, ReadClosed) > 0 <==> p.read == Closed)
    && (Count(h, WriteClosed) > 0 <==> p.write == Closed)
    && (Count(h, Disable) > 0 <==> p.disabled)
  }

  lemma TallyIdsStep(server: bool, h: History, p: Phase, e: Event)
    requires TallyIds(server, h, p) && Next(server, p, e).Some?
    ensures TallyIds(server, Then(h, e), Next(server, p, e).value)
  {
  }

  lemma TallyCountsStep(server: bool, h: History, p: Phase, e: Event)
    requires TallyCounts(h, p) && Next(server, p, e).Some?
    ensures TallyCounts(Then(h, e), Next(server, p, e).value)
  {
    var q := Next(server, p, e).value;
    assert SideTally(q.read, |ReadIds(Then(h, e))|, Count(Then(h, e), ReadDone), Count(Then(h, e), Reset));
  }

  lemma TallyMarksStep(server: bool, h: History, p: Phase, e: Event)
    requires TallyMarks(server, h, p) && Next(server, p, e).Some?
    ensures TallyMarks(server, Then(h, e), Next(server, p, e).value)
  {
  }

  lemma {:induction false} Tallied(server: bool, h: History)
    requires After(server, h).Some?
    ensures var p := After(server, h).value;
            TallyIds(server, h, p) && TallyCounts(h, p) && TallyMarks(server, h, p)
  {
    if h.Then? {
      Tallied(server, h.past);
      var p := After(server, h.past).value;
      TallyIdsStep(server, h.past, p, h.last);
      TallyCountsStep(server, h.past, p, h.last);
      TallyMarksStep(server, h.past, p, h.last);
    }
  }

  lemma {:induction false} AcceptedServerOrdered(h: History)
    requires After(true, h).Some?
    ensures ServerOrdered(h)
  {
    if h.Then? {
      AcceptedServerOrdered(h.past);
      Tallied(true, h.past);
    }
  }

  lemma {:induction false} AcceptedClientOrdered(h: History)
    requires After(false, h).Some?
    ensures ClientOrdered(h)
  {
    if h.Then? {
      AcceptedClientOrdered(h.past);
      Tallied(false, h.past);
    }
  }

  lemma {:induction false} WindingDown(server: bool, h: History)
    requires After(server, h).Some? && Count(h, Disable) > 0
    ensures var p, since := After(server, h).value, SinceDisabled(h);
            && Count(since, Reset) == 0
            && |ReadIds(since)| + (if p.read == Idle then 1 else 0) <= 1
            && HeadsWritten(since) + (if p.write == Idle then 1 else 0) <= 1
  {
    Tallied(server, h.past);
    if Count(h.past, Disable) > 0 {
      WindingDown(server, h.past);
    }
  }

  lemma AcceptedWindsDown(server: bool, h: History)
    requires After(server, h).Some?
    ensures WindsDown(h)
  {
    if Count(h, Disable) > 0 {
      WindingDown(server, h);
    } else if h.Then? {
      assert Count(h.past, Disable) == 0;
    }
  }

  lemma ClosedStep(server: bool, p: Phase, e: Event)
    requires Next(server, p, e).Some?
    ensures var q := Next(server, p, e).value;
            && (p.read == Closed ==> q.read == Closed && !e.ReadHead?)
            && (p.write == Closed ==> q.write == Closed && !e.WriteHead? && e != ErrorHead)
            && (p.disabled ==> q.disabled && e != Reset)
  {
  }

  /** A server that owes no response, and has not closed its write side, has answered every request. */
  lemma {:induction false} NothingOwed(h: History)
    requires After(true, h).Some? && After(true, h).value.open == None
    ensures ReadIds(h) == WriteIds(h)
  {
    Tallied(true, h);
  }

  lemma {:induction false} WriteClosedIsMarked(server: bool, h: History)
    requires After(server, h).Some? && After(server, h).value.write == Closed
    ensures Count(h, WriteClosed) > 0
  {
    Tallied(server, h);
  }

  /** A direction that has closed stays closed, and so does keep-alive that has been given up. */
  lemma {:induction false} ClosedForGood(server: bool, a: History, b: History)
    requires Extends(a, b) && After(server, b).Some?
    ensures After(server, a).Some?
    ensures var p, q := After(server, a).value, After(server, b).value;
            && (p.read == Closed ==> q.read == Closed && ReadIds(b) == ReadIds(a))
            && (p.write == Closed ==> q.write == Closed && HeadsWritten(b) == HeadsWritten(a))
            && (p.disabled ==> q.disabled && Count(b, Reset) == Count(a, Reset))
    decreases b
  {
    if a != b {
      ClosedForGood(server, a, b.past);
      ClosedStep(server, After(server, b.past).value, b.last);
    }
  }
}
