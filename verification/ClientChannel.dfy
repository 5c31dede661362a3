/** The channel between the callers of a client and its connection (src/client/dispatch.rs): an
    unbounded queue, and a flag by which the connection asks for one more request. */
module ClientChannel {
  import opened Bytes

  /** What the two ends do. The receiver polls, finding the queue empty, and then asks for more; a
      sender is accepted, and then its request reaches the queue. Each pair is one step or two,
      depending on how finely the ends are taken to interleave. */
  datatype Step = Send | Accept | Push | Poll | CheckEmpty | Want

  class Channel {
    /** `Sender::buffered_once`. */
    var bufferedOnce: bool
    /** The state of the `want` flag: the receiver has asked, and nobody has taken up the offer. */
    var wanted: bool
    var queue: nat
    /** A send that has been accepted but whose request is not in the queue yet. */
    var sending: bool
    /** The receiver has found the queue empty but has not asked for more yet. */
    var checked: bool

    constructor ()
      ensures !bufferedOnce && !wanted && queue == 0 && !sending && !checked
    {
      bufferedOnce, wanted, queue, sending, checked := false, false, 0, false, false;
    }

    /** Requests accepted and not received. */
    function Unreceived(): nat
      reads this
    {
      queue + if sending then 1 else 0
    }

    /** The channel would accept a request now. */
    predicate Open()
      reads this
    {
      wanted || !bufferedOnce
    }

    /** What is outstanding, and could become so without another word from the receiver. */
    ghost function Exposure(): nat
      reads this
    {
      Unreceived() + if Open() then 1 else 0
    }

    ghost predicate Valid(splitSend: bool, splitPoll: bool)
      reads this
    {
      && (sending ==> splitSend) && (checked ==> splitPoll)
      && Exposure() <= Bound(splitSend, splitPoll) - if checked then 1 else 0
    }

    /** `can_send`. */
    method CanSend() returns (ok: bool)
      modifies `bufferedOnce, `wanted
      ensures ok == old(Open())
      ensures !Open() && (ok ==> bufferedOnce && !wanted)
    {
      var gave := wanted;
      wanted := false;
      if gave || !bufferedOnce {
        bufferedOnce := true;
        return true;
      }
      return false;
    }

    /** `send` and `try_send`. */
    method TrySend() returns (ok: bool)
      requires !sending
      modifies `bufferedOnce, `wanted, `queue
      ensures ok == old(Open()) && queue == old(queue) + (if ok then 1 else 0) && !Open()
    {
      ok := CanSend();
      if ok {
        queue := queue + 1;
      }
    }

    /** `poll_recv`: a request, or a word that one is wanted. */
    method PollRecv() returns (r: bool)
      requires !checked
      modifies `queue, `wanted
      ensures r == (old(queue) > 0)
      ensures if r then queue == old(queue) - 1 && wanted == old(wanted) else queue == 0 && wanted
    {
      if queue > 0 {
        queue := queue - 1;
        return true;
      }
      wanted := true;
      return false;
    }

    // The same in two steps each.

    /** The first half of a send. */
    method Accept()
      requires !sending
      modifies `bufferedOnce, `wanted, `sending
      ensures sending == old(Open()) && !Open()
    {
      sending := CanSend();
    }

    /** The second half of a send. */
    method Push()
      requires sending
      modifies `queue, `sending
      ensures queue == old(queue) + 1 && !sending
    {
      queue, sending := queue + 1, false;
    }

    /** The first half of a poll. */
    method CheckEmpty()
      requires !checked
      modifies `queue, `checked
      ensures if old(queue) > 0 then queue == old(queue) - 1 && !checked else queue == 0 && checked
    {
      if queue > 0 {
        queue := queue - 1;
      } else {
        checked := true;
      }
    }

    /** The second half of a poll that found nothing. */
    method Want()
      requires checked
      modifies `wanted, `checked
      ensures wanted && !checked
    {
      wanted, checked := true, false;
    }
  }

  /** One more than one for each end whose two actions can be told apart. */
  function Bound(splitSend: bool, splitPoll: bool): nat {
    1 + (if splitSend then 1 else 0) + if splitPoll then 1 else 0
  }

  /** A step, or nothing if it is not its turn. */
  method Do(c: Channel, step: Step, splitSend: bool, splitPoll: bool)
    requires c.Valid(splitSend, splitPoll)
    modifies c
    ensures c.Valid(splitSend, splitPoll)
  {
    match step {
      case Send =>
        if !c.sending {
          var _ := c.TrySend();
        }
      case Accept =>
        if splitSend && !c.sending {
          c.Accept();
        }
      case Push =>
        if c.sending {
          c.Push();
        }
      case Poll =>
        if !c.checked {
          var _ := c.PollRecv();
        }
      case CheckEmpty =>
        if splitPoll && !c.checked {
          c.CheckEmpty();
        }
      case Want =>
        if c.checked {
          c.Want();
        }
    }
  }

  /** However the two ends interleave, no more requests than the bound are ever accepted and not yet
      received: one if both ends act at once, two if either can be caught between its two actions,
      three if both can. */
  method Run(steps: seq<Step>, splitSend: bool, splitPoll: bool) returns (most: nat)
    ensures most <= Bound(splitSend, splitPoll)
  {
    var c := new Channel();
    most := 0;
    for i := 0 to |steps|
      invariant fresh(c) && c.Valid(splitSend, splitPoll) && most <= Bound(splitSend, splitPoll)
    {
      Do(c, steps[i], splitSend, splitPoll);
      if c.Unreceived() > most {
        most := c.Unreceived();
      }
    }
  }

  /** The bounds are met: two when the receiver can be caught between finding the queue empty and
      asking for more. */
  method TwoUnreceived() returns (n: nat)
    ensures n == Bound(false, true) == 2
  {
    var c := new Channel();
    c.CheckEmpty();
    var first := c.TrySend();
    c.Want();
    var second := c.TrySend();
    return c.Unreceived();
  }

  /** Two as well when a sender can be caught between being accepted and reaching the queue. */
  method TwoUnreceivedBySender() returns (n: nat)
    ensures n == Bound(true, false) == 2
  {
    var c := new Channel();
    c.Accept();
    var none := c.PollRecv();
    c.Push();
    var second := c.TrySend();
    return c.Unreceived();
  }

  /** And three when both can. */
  method ThreeUnreceived() returns (n: nat)
    ensures n == Bound(true, true) == 3
  {
    var c := new Channel();
    c.Accept();                    // accepted, on its way
    var none := c.PollRecv();      // the queue is still empty, so more is wanted
    c.CheckEmpty();                // and polled again: still empty
    c.Push();
    var second := c.TrySend();
    c.Want();                      // the second poll asks too
    var third := c.TrySend();
    return c.Unreceived();
  }
}
