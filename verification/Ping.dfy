/** Pings on an HTTP/2 connection (src/proto/h2/ping.rs): the keep-alive timer, and the pings that
    measure round trips. Time is a number that never goes back; where the source reads the clock, the
    caller says how much time has passed. */
module Ping {
  import opened Bytes
  import BdpEstimate

  // ----- what a connection goes through -----

  /** Something was recorded as read; keep-alive tried to send a ping, with or without success; a ping
      was sent to measure a round trip; a pong was accepted; a timeout was reported. */
  datatype Event = Recorded(at: nat) | Attempt(at: nat, sent: bool) | Probe(at: nat) | Pong(at: nat) | TimedOut(at: nat)

  datatype History = Started(at: nat) | Then(past: History, last: Event)

  datatype Config = Config(adaptive: bool, interval: Option<nat>, timeout: nat, whileIdle: bool)

  ghost function LastTime(h: History): nat {
    if h.Started? then h.at else h.last.at
  }

  /** When something was last read, pongs included. */
  ghost function LastRead(h: History): nat {
    if h.Started? then h.at
    else if h.last.Recorded? || h.last.Pong? then h.last.at
    else LastRead(h.past)
  }

  /** When the ping that has had no pong yet was sent. */
  ghost function SentAt(h: History): Option<nat> {
    if h.Started? || h.last.Pong? then None
    else if h.last.Probe? || (h.last.Attempt? && h.last.sent) then Some(h.last.at)
    else SentAt(h.past)
  }

  /** The last attempt of keep-alive, if no pong has come since. */
  ghost function AttemptAt(h: History): Option<nat> {
    if h.Started? || h.last.Pong? then None
    else if h.last.Attempt? then Some(h.last.at)
    else AttemptAt(h.past)
  }

  ghost predicate HasTimedOut(h: History) {
    h.Then? && (h.last.TimedOut? || HasTimedOut(h.past))
  }

  /** What keep-alive promises of each event. */
  ghost predicate Allowed(h: History, e: Event, c: Config) {
    && LastTime(h) <= e.at
    && match e
       case Recorded(_) => true
       case Attempt(at, _) => !HasTimedOut(h) && c.interval.Some? && LastRead(h) + c.interval.value <= at
       case Probe(_) => c.adaptive && SentAt(h).None?
       case Pong(_) => SentAt(h).Some?
       case TimedOut(at) => !HasTimedOut(h) && SentAt(h).Some? && AttemptAt(h).Some? && AttemptAt(h).value + c.timeout <= at
  }

  ghost predicate Kept(h: History, c: Config) {
    h.Then? ==> Kept(h.past, c) && Allowed(h.past, h.last, c)
  }

  /** At an attempt, each thing ever read is at least `interval` old. */
  ghost predicate AllReadBefore(h: History, t: nat) {
    h.Then? ==> AllReadBefore(h.past, t) && (h.last.Recorded? || h.last.Pong? ==> h.last.at <= t)
  }

  lemma {:induction false} LastReadIsLast(h: History, c: Config)
    requires Kept(h, c)
    ensures AllReadBefore(h, LastRead(h)) && LastRead(h) <= LastTime(h)
  {
    if h.Then? {
      LastReadIsLast(h.past, c);
      Weaken(h.past, LastRead(h.past), LastRead(h));
    }
  }

  lemma {:induction false} Weaken(h: History, t: nat, u: nat)
    requires AllReadBefore(h, t) && t <= u
    ensures AllReadBefore(h, u)
  {
    if h.Then? {
      Weaken(h.past, t, u);
    }
  }

  lemma {:induction false} QuietBeforeAttempt(h: History, at: nat, sent: bool, c: Config)
    requires Kept(Then(h, Attempt(at, sent)), c)
    ensures c.interval.Some? && c.interval.value <= at && AllReadBefore(h, at - c.interval.value)
  {
    LastReadIsLast(h, c);
    Weaken(h, LastRead(h), at - c.interval.value);
  }

  // ----- is the ping that times out as old as the timeout? -----

  /** The last attempt was followed by a ping of another kind, with no pong between. */
  ghost predicate ProbedSince(h: History) {
    h.Then? && !h.last.Pong? && !h.last.Attempt? && (h.last.Probe? || ProbedSince(h.past))
  }

  /** After the last attempt a ping was out, whether it was sent then or before. */
  ghost predicate LeftPing(h: History) {
    h.Then? && !h.last.Pong? && if h.last.Attempt? then SentAt(h).Some? else LeftPing(h.past)
  }

  /** A ping was out all the time from the attempt to the timeout exactly if the attempt left one; it
      is then at least `timeout` old. */
  lemma {:induction false} PingWasOut(h: History, at: nat, c: Config)
    requires Kept(Then(h, TimedOut(at)), c)
    ensures LeftPing(h) <==> !ProbedSince(h)
    ensures LeftPing(h) ==> SentAt(h).value + c.timeout <= at
  {
    SinceAttempt(h, c);
  }

  lemma {:induction false} SinceAttempt(h: History, c: Config)
    requires Kept(h, c)
    ensures SentAt(h).Some? ==> SentAt(h).value <= LastTime(h)
    ensures AttemptAt(h).Some? && SentAt(h).Some? ==> (LeftPing(h) <==> !ProbedSince(h))
    ensures AttemptAt(h).Some? && SentAt(h).None? ==> !LeftPing(h) && !ProbedSince(h)
    ensures AttemptAt(h).Some? && LeftPing(h) ==> SentAt(h).Some? && SentAt(h).value <= AttemptAt(h).value
  {
    if h.Then? {
      SinceAttempt(h.past, c);
    }
  }

  /** Keep-alive once tried to ping while none was out, and could not. */
  ghost predicate Refused(h: History) {
    h.Then? && (Refused(h.past) || (h.last.Attempt? && !h.last.sent && SentAt(h.past).None?))
  }

  /** After such a refusal no ping is ever sent again, as when the connection is gone. */
  ghost predicate RefusalIsFinal(h: History) {
    h.Then? ==>
      && RefusalIsFinal(h.past)
      && (Refused(h.past) ==> !h.last.Probe? && !(h.last.Attempt? && h.last.sent))
  }

  /** If refusals are final, a ping has been out for the whole timeout at every timeout. */
  lemma {:induction false} FinalRefusalsKeepTheDocs(h: History, at: nat, c: Config)
    requires Kept(Then(h, TimedOut(at)), c) && RefusalIsFinal(h)
    ensures LeftPing(h) && SentAt(h).value + c.timeout <= at
  {
    NothingAfterRefusal(h, c);
    PingWasOut(h, at, c);
  }

  lemma {:induction false} NothingAfterRefusal(h: History, c: Config)
    requires Kept(h, c) && RefusalIsFinal(h)
    ensures Refused(h) ==> SentAt(h).None?
    ensures AttemptAt(h).Some? && !LeftPing(h) ==> Refused(h)
  {
    if h.Then? {
      NothingAfterRefusal(h.past, c);
    }
  }

  // ----- the state behind the lock -----

  const MAX_SAMPLE := 0x8000_0000_0000_0000

  class Shared {
    var pingSentAt: Option<nat>
    /** Bytes read in this sample, if round trips are measured. */
    var bytes: Option<nat>
    var nextBdpAt: Option<nat>
    var lastReadAt: Option<nat>
    var isKeepAliveTimedOut: bool
    var now: nat
    /** A record of what has happened; nothing looks at it. */
    var history: History

    constructor (config: Config, at: nat)
      ensures Valid() && history == Started(at) && now == at && !isKeepAliveTimedOut && pingSentAt == None
      ensures bytes == (if config.adaptive then Some(0) else None)
      ensures nextBdpAt == (if config.adaptive then Some(at) else None)
      ensures lastReadAt == (if config.interval.Some? then Some(at) else None)
    {
      pingSentAt, isKeepAliveTimedOut, now := None, false, at;
      bytes := if config.adaptive then Some(0) else None;
      nextBdpAt := if config.adaptive then Some(at) else None;
      lastReadAt := if config.interval.Some? then Some(at) else None;
      history := Started(at);
    }

    ghost predicate Valid()
      reads this
    {
      && LastTime(history) <= now
      && pingSentAt == SentAt(history)
      && (isKeepAliveTimedOut <==> HasTimedOut(history))
      && (lastReadAt.Some? && !isKeepAliveTimedOut ==> lastReadAt.value == LastRead(history))
      && (bytes.Some? ==> bytes.value < MAX_SAMPLE)
    }

    method Now(passed: nat) returns (t: nat)
      modifies `now
      ensures t == now == old(now) + passed
    {
      now := now + passed;
      t := now;
    }

    predicate IsPingSent()
      reads this
    {
      pingSentAt.Some?
    }

    /** `send_ping`, for keep-alive or for a measurement; only one that goes out is remembered. */
    method SendPing(passed: nat, ok: bool, forKeepAlive: bool)
      requires Valid()
      modifies `pingSentAt, `now, `history
      ensures Valid() && now == old(now) + passed
      ensures pingSentAt == if ok then Some(now) else old(pingSentAt)
      ensures history == if forKeepAlive then Then(old(history), Attempt(now, ok))
                         else if ok then Then(old(history), Probe(now)) else old(history)
    {
      var t := Now(passed);
      if ok {
        pingSentAt := Some(t);
      }
      if forKeepAlive {
        history := Then(history, Attempt(t, ok));
      } else if ok {
        history := Then(history, Probe(t));
      }
    }

    /** `update_last_read_at`. */
    method UpdateLastReadAt(passed: nat)
      requires LastTime(history) <= now
      modifies `lastReadAt, `now
      ensures now == old(now) + passed
      ensures lastReadAt == if old(lastReadAt).Some? then Some(now) else None
    {
      var t := Now(passed);
      if lastReadAt.Some? {
        lastReadAt := Some(t);
      }
    }

    /** `record_non_data`: a frame arrived. */
    method RecordNonData(passed: nat)
      requires Valid()
      modifies `lastReadAt, `now, `history
      ensures Valid() && now == old(now) + passed && history == Then(old(history), Recorded(now))
      ensures lastReadAt.Some? <==> old(lastReadAt).Some?
    {
      UpdateLastReadAt(passed);
      history := Then(history, Recorded(now));
    }

    /** Whether a measurement is running, or may start at time `t`. */
    predicate Sampling(t: nat)
      reads this
    {
      bytes.Some? && (nextBdpAt.Some? ==> nextBdpAt.value <= t)
    }

    /** `record_data`: data arrived. The first data of a measurement sends a ping, unless one is out. */
    method RecordData(len: nat, passed: nat, passed2: nat, passed3: nat, ok: bool)
      requires Valid() && (bytes.Some? ==> bytes.value + len < MAX_SAMPLE)
      modifies `lastReadAt, `now, `history, `bytes, `nextBdpAt, `pingSentAt
      ensures Valid() && (lastReadAt.Some? <==> old(lastReadAt).Some?) && (bytes.Some? <==> old(bytes).Some?)
      ensures var read := Then(old(history), Recorded(old(now) + passed));
              var t := old(now) + passed + passed2;
              && (old(Sampling(t)) ==> bytes == Some(old(bytes).value + len) && nextBdpAt == None)
              && (!old(Sampling(t)) ==> bytes == old(bytes))
              && if old(Sampling(t)) && old(pingSentAt).None? && ok
                 then history == Then(read, Probe(t + passed3)) && now == t + passed3
                 else history == read && pingSentAt == old(pingSentAt)
    {
      RecordNonData(passed);
      if nextBdpAt.Some? {
        var t := Now(passed2);
        if t < nextBdpAt.value {
          return;
        }
        nextBdpAt := None;
      } else {
        var _ := Now(passed2);
      }
      if bytes.None? {
        return;
      }
      bytes := Some(bytes.value + len);
      if !IsPingSent() {
        SendPing(passed3, ok, false);
      }
    }
  }

  // ----- keep-alive -----

  datatype KeepAliveState = Init | Scheduled | PingSent

  class KeepAlive {
    const interval: nat
    const timeout: nat
    const whileIdle: bool
    var state: KeepAliveState
    /** When the timer goes off. It may be noticed later, never earlier. */
    var deadline: nat

    constructor (interval: nat, timeout: nat, whileIdle: bool, at: nat)
      ensures this.interval == interval && this.timeout == timeout && this.whileIdle == whileIdle && state == Init
    {
      this.interval, this.timeout, this.whileIdle := interval, timeout, whileIdle;
      state, deadline := Init, at + interval;
    }

    /** Whether `schedule` sets the timer. */
    predicate Schedules(isIdle: bool, pingOut: bool)
      reads `state
    {
      (state.Init? && (whileIdle || !isIdle)) || (state.PingSent? && !pingOut)
    }

    method Schedule(isIdle: bool, shared: Shared)
      requires shared.lastReadAt.Some?
      modifies `state, `deadline
      ensures if old(Schedules(isIdle, shared.pingSentAt.Some?))
              then state == Scheduled && deadline == shared.lastReadAt.value + interval
              else state == old(state) && deadline == old(deadline)
    {
      match state
      case Init =>
        if !whileIdle && isIdle {
          return;
        }
        state, deadline := Scheduled, shared.lastReadAt.value + interval;
      case PingSent =>
        if shared.IsPingSent() {
          return;
        }
        state, deadline := Scheduled, shared.lastReadAt.value + interval;
      case Scheduled =>
    }

    /** `maybe_ping`: when the timer has gone off, and nothing was read since it was set, try to ping. */
    method MaybePing(shared: Shared, late: bool, passed: nat, passed2: nat, ok: bool)
      requires shared.Valid() && shared.lastReadAt.Some?
      modifies `state, `deadline, shared`pingSentAt, shared`now, shared`history
      ensures shared.Valid()
      ensures var fires := old(state).Scheduled? && old(deadline) <= old(shared.now) && !late;
              if fires && shared.lastReadAt.value + interval <= old(deadline) then
                && state == PingSent && deadline == shared.now + timeout
                && shared.now == old(shared.now) + passed + passed2
                && shared.history == Then(old(shared.history), Attempt(old(shared.now) + passed, ok))
              else
                && state == (if fires then Init else old(state)) && deadline == old(deadline)
                && shared.history == old(shared.history) && shared.now == old(shared.now)
    {
      if state.Scheduled? {
        if shared.now < deadline || late {
          return;
        }
        if shared.lastReadAt.value + interval > deadline {
          state := Init;
          return;
        }
        shared.SendPing(passed, ok, true);
        state := PingSent;
        var t := shared.Now(passed2);
        deadline := t + timeout;
      }
    }

    /** `maybe_timeout`. */
    method MaybeTimeout(shared: Shared, late: bool) returns (timedOut: bool)
      ensures timedOut <==> state.PingSent? && deadline <= shared.now && !late
    {
      match state
      case PingSent =>
        timedOut := deadline <= shared.now && !late;
      case Init =>
        timedOut := false;
      case Scheduled =>
        timedOut := false;
    }
  }

  // ----- polling -----

  datatype PongPoll = NotYet | Answered | Failed

  datatype Ponged = NotReady | SizeUpdate(window: nat) | KeepAliveTimedOut

  /** What the outside decides in one poll: whether any streams are open, whether the timer is noticed
      late, whether a ping can be sent, what has become of the pong, how the bandwidth compares, and
      how time passes. */
  datatype Choices = Choices(isIdle: bool, late: bool, ok: bool, pong: PongPoll, slower: bool,
                             passed0: nat, passed1: nat, passed2: nat, passed3: nat)

  // ----- what a poll does, said without the objects -----

  datatype Timer = Timer(state: KeepAliveState, deadline: nat)

  /** A measurement: the bytes so far, when the next may start, the window, and the delay between two. */
  datatype Measure = Measure(bytes: nat, nextAt: Option<nat>, window: nat, delay: nat)

  datatype View = View(history: History, now: nat, timer: Option<Timer>, measure: Option<Measure>)

  /** `schedule`: unless it is set already, the timer is set for an interval after the last read, when
      streams are open or keep-alive works without, and after a ping once that has had its pong. */
  ghost function Rescheduled(v: View, timer: Timer, config: Config, isIdle: bool): Timer
    requires config.interval.Some?
  {
    if (timer.state.Init? && (config.whileIdle || !isIdle)) || (timer.state.PingSent? && SentAt(v.history).None?)
    then Timer(Scheduled, LastRead(v.history) + config.interval.value)
    else timer
  }

  /** Whether a poll tries to ping: the timer has gone off and nothing was read after it was set. */
  ghost predicate Due(v: View, config: Config, c: Choices)
    requires v.timer.Some? && config.interval.Some?
  {
    var timer := Rescheduled(v, v.timer.value, config, c.isIdle);
    timer.state.Scheduled? && timer.deadline <= v.now && !c.late && LastRead(v.history) + config.interval.value <= timer.deadline
  }

  /** The part of a poll that is about sending. */
  ghost function Turned(v: View, config: Config, c: Choices): View
    requires v.timer.Some? ==> config.interval.Some?
  {
    if v.timer.None? then v
    else if Due(v, config, c) then
      var now := v.now + c.passed1 + c.passed2;
      v.(history := Then(v.history, Attempt(v.now + c.passed1, c.ok)), now := now, timer := Some(Timer(PingSent, now + config.timeout)))
    else
      var timer := Rescheduled(v, v.timer.value, config, c.isIdle);
      v.(timer := Some(if timer.state.Scheduled? && timer.deadline <= v.now && !c.late then timer.(state := Init) else timer))
  }

  /** The part about receiving: a pong that has come for the ping that is out is accepted; without one
      keep-alive gives up exactly when its timer has gone off; otherwise nothing happens. */
  ghost predicate PongOutcome(v: View, w: View, config: Config, c: Choices, r: Ponged, at: nat)
    requires v.timer.Some? ==> config.interval.Some?
  {
    if SentAt(v.history).Some? && c.pong.Answered? then
      && v.now <= w.now && w.history == Then(v.history, Pong(w.now))
      && w.timer == (if v.timer.None? then None else Some(Rescheduled(w, v.timer.value, config, c.isIdle)))
      && (if v.measure.None? then r == NotReady && w.measure == None
          else w.measure.Some? && Sampled(v.measure.value, w.measure.value, c.slower, r, at))
    else if SentAt(v.history).Some? && c.pong.NotYet? && !c.late && v.timer.Some? && v.timer.value.state.PingSent?
         && v.timer.value.deadline <= v.now then
      r == KeepAliveTimedOut && w == v.(history := Then(v.history, TimedOut(v.now)), timer := None)
    else
      r == NotReady && w == v
  }

  /** What a pong does to a measurement: the window is updated, to twice the bytes up to the limit, if
      and only if it can grow, the bandwidth is not below the best one, and the bytes fill two thirds
      of it. */
  ghost predicate Sampled(m: Measure, n: Measure, slower: bool, r: Ponged, at: nat) {
    && n.bytes == 0 && n.nextAt == Some(at + n.delay)
    && if m.window != BdpEstimate.LIMIT && !slower && 3 * m.bytes + 2 >= 2 * m.window
       then r == SizeUpdate(n.window) && n.window == if 2 * m.bytes < BdpEstimate.LIMIT then 2 * m.bytes else BdpEstimate.LIMIT
       else r == NotReady && n.window == m.window
  }

  class Ponger {
    ghost const config: Config
    const shared: Shared
    const bdp: BdpEstimate.Bdp?
    var keepAlive: KeepAlive?

    constructor (config: Config, at: nat)
      ensures Valid() && this.config == config && fresh(shared) && (keepAlive != null ==> fresh(keepAlive)) && (bdp != null ==> fresh(bdp))
      ensures shared.history == Started(at) && shared.now == at
      ensures config.interval.Some? ==>
                keepAlive != null && keepAlive.state == Init && keepAlive.whileIdle == config.whileIdle
      ensures config.adaptive ==> shared.nextBdpAt == Some(at) && shared.bytes == Some(0)
    {
      this.config := config;
      shared := new Shared(config, at);
      bdp := null;
      keepAlive := null;
      if config.adaptive {
        bdp := new BdpEstimate.Bdp();
      }
      if config.interval.Some? {
        keepAlive := new KeepAlive(config.interval.value, config.timeout, config.whileIdle, at);
      }
    }

    ghost predicate Valid()
      reads this, shared, keepAlive, bdp
    {
      && shared.Valid() && Kept(shared.history, config)
      && KeepAliveOk()
      && (config.adaptive <==> shared.bytes.Some?)
      && (if config.adaptive then bdp != null && bdp.Valid() else bdp == null)
    }

    /** While keep-alive waits for a pong, its last attempt is on record, and the timer is set for no
        sooner than the timeout after it. */
    ghost predicate KeepAliveOk()
      reads this, shared, keepAlive
    {
      if keepAlive == null then shared.lastReadAt.None? || shared.isKeepAliveTimedOut
      else
        && config.interval == Some(keepAlive.interval) && keepAlive.timeout == config.timeout
        && keepAlive.whileIdle == config.whileIdle
        && shared.lastReadAt.Some? && !shared.isKeepAliveTimedOut
        && (keepAlive.state.PingSent? ==>
              AttemptAt(shared.history).Some? && AttemptAt(shared.history).value + config.timeout <= keepAlive.deadline)
    }

    ghost function Now(): View
      reads this, shared, keepAlive, bdp
    {
      View(shared.history, shared.now,
           if keepAlive == null then None else Some(Timer(keepAlive.state, keepAlive.deadline)),
           if bdp == null || shared.bytes.None? then None
           else Some(Measure(shared.bytes.value, shared.nextBdpAt, bdp.bdp, bdp.pingDelay)))
    }

    method KeepAliveTurn(c: Choices)
      requires Valid() && keepAlive != null
      modifies shared`pingSentAt, shared`now, shared`history, keepAlive
      ensures Valid() && Now() == Turned(old(Now()), config, c)
    {
      keepAlive.Schedule(c.isIdle, shared);
      keepAlive.MaybePing(shared, c.late, c.passed1, c.passed2, c.ok);
    }

    /** A pong is taken for the ping that is out; it counts as something read. */
    method AcceptPong(c: Choices, at: nat) returns (r: Ponged)
      requires Valid() && shared.pingSentAt.Some? && c.pong.Answered?
      modifies shared`pingSentAt, shared`lastReadAt, shared`now, shared`history, shared`bytes, shared`nextBdpAt, keepAlive, bdp
      ensures Valid() && shared.pingSentAt == None && PongOutcome(old(Now()), Now(), config, c, r, at)
      ensures bdp != null ==> bdp.sizes == old(bdp.sizes) + (if r.SizeUpdate? then [r.window] else [])
    {
      ReadPong(c);
      if bdp != null {
        r := Sample(c.slower, at);
      } else {
        r := NotReady;
      }
    }

    /** What a pong means to keep-alive. */
    method ReadPong(c: Choices)
      requires Valid() && shared.pingSentAt.Some?
      modifies shared`pingSentAt, shared`lastReadAt, shared`now, shared`history, keepAlive
      ensures Valid() && shared.pingSentAt == None && shared.bytes == old(shared.bytes)
      ensures var v, w := old(Now()), Now();
              && v.now <= w.now && w.history == Then(v.history, Pong(w.now)) && w.measure == v.measure
              && w.timer == if v.timer.None? then None else Some(Rescheduled(w, v.timer.value, config, c.isIdle))
    {
      shared.pingSentAt := None;
      if keepAlive != null {
        shared.UpdateLastReadAt(c.passed3);
        keepAlive.Schedule(c.isIdle, shared);
      }
      shared.history := Then(shared.history, Pong(shared.now));
    }

    /** The pong ends a measurement; the next one has to wait. */
    method Sample(slower: bool, at: nat) returns (r: Ponged)
      requires Valid() && bdp != null
      modifies shared`bytes, shared`nextBdpAt, bdp
      ensures Valid() && Sampled(old(Now()).measure.value, Now().measure.value, slower, r, at)
      ensures bdp.sizes == old(bdp.sizes) + (if r.SizeUpdate? then [r.window] else [])
    {
      var bytes := shared.bytes.value;
      shared.bytes := Some(0);
      var update := bdp.Calculate(bytes, slower);
      shared.nextBdpAt := Some(at + bdp.pingDelay);
      return if update.Some? then SizeUpdate(update.value) else NotReady;
    }

    /** A ping is out: take its pong, or see whether it is too late for one. */
    method PongTurn(c: Choices, at: nat) returns (r: Ponged)
      requires Valid() && shared.pingSentAt.Some?
      modifies `keepAlive, shared, keepAlive, bdp
      ensures Valid() && OnTimeout(r, old(keepAlive), old(shared.isKeepAliveTimedOut))
      ensures PongOutcome(old(Now()), Now(), config, c, r, at)
      ensures bdp != null ==> bdp.sizes == old(bdp.sizes) + (if r.SizeUpdate? then [r.window] else [])
    {
      match c.pong
      case Answered =>
        r := AcceptPong(c, at);
      case Failed =>
        r := NotReady;
      case NotYet =>
        r := NotReady;
        if keepAlive != null {
          var timedOut := keepAlive.MaybeTimeout(shared, c.late);
          if timedOut {
            keepAlive := null;
            shared.isKeepAliveTimedOut := true;
            shared.history := Then(shared.history, TimedOut(shared.now));
            return KeepAliveTimedOut;
          }
        }
    }

    /** With the report of a timeout keep-alive ends. */
    ghost predicate OnTimeout(r: Ponged, before: KeepAlive?, flag: bool)
      reads this, shared
    {
      && keepAlive == (if r.KeepAliveTimedOut? then null else before)
      && shared.isKeepAliveTimedOut == (flag || r.KeepAliveTimedOut?)
      && (r.KeepAliveTimedOut? ==> before != null)
    }

    /** `Ponger::poll`. */
    method Poll(c: Choices) returns (r: Ponged)
      requires Valid()
      modifies `keepAlive, shared, keepAlive, bdp
      ensures Valid() && OnTimeout(r, old(keepAlive), old(shared.isKeepAliveTimedOut))
      ensures var at := old(shared.now) + c.passed0;
              PongOutcome(Turned(old(Now()).(now := at), config, c), Now(), config, c, r, at)
      ensures bdp != null ==> bdp.sizes == old(bdp.sizes) + (if r.SizeUpdate? then [r.window] else [])
    {
      var at := Begin(c);
      r := Receive(c, at);
    }

    /** The part about sending, after a look at the clock. */
    method Begin(c: Choices) returns (at: nat)
      requires Valid()
      modifies shared`pingSentAt, shared`now, shared`history, keepAlive
      ensures Valid() && at == old(shared.now) + c.passed0 && Now() == Turned(old(Now()).(now := at), config, c)
    {
      at := shared.Now(c.passed0);
      if keepAlive != null {
        KeepAliveTurn(c);
      }
    }

    /** The part about receiving. */
    method Receive(c: Choices, at: nat) returns (r: Ponged)
      requires Valid()
      modifies `keepAlive, shared, keepAlive, bdp
      ensures Valid() && OnTimeout(r, old(keepAlive), old(shared.isKeepAliveTimedOut))
      ensures PongOutcome(old(Now()), Now(), config, c, r, at)
      ensures bdp != null ==> bdp.sizes == old(bdp.sizes) + (if r.SizeUpdate? then [r.window] else [])
    {
      if !shared.IsPingSent() {
        return NotReady;
      }
      r := PongTurn(c, at);
    }
  }

  /** A pong that has come for the ping that keep-alive waits for ends the waiting: there is no timeout,
      no ping is out any more, and the timer is set for an interval after it. */
  lemma {:induction false} AnsweredInTime(v: View, w: View, config: Config, c: Choices, r: Ponged, at: nat)
    requires config.interval.Some? && v.timer.Some? && v.timer.value.state.PingSent?
    requires SentAt(v.history).Some? && c.pong.Answered? && PongOutcome(v, w, config, c, r, at)
    ensures r != KeepAliveTimedOut && SentAt(w.history) == None && LastRead(w.history) == w.now
    ensures w.timer == Some(Timer(Scheduled, w.now + config.interval.value))
  {
  }

  // ----- whole runs -----

  /** Polls and arriving frames in any order: keep-alive keeps its promises, and reports one timeout at
      most. */
  method Run(config: Config, at: nat, steps: nat) returns (history: History, reports: nat)
    ensures Kept(history, config)
    ensures reports == if HasTimedOut(history) then 1 else 0
  {
    var ponger := new Ponger(config, at);
    var shared := ponger.shared;
    reports := 0;
    for step := 0 to steps
      invariant fresh(ponger) && fresh(ponger.shared) && ponger.shared == shared && ponger.config == config
      invariant (ponger.keepAlive != null ==> fresh(ponger.keepAlive)) && (ponger.bdp != null ==> fresh(ponger.bdp))
      invariant ponger.Valid()
      invariant reports == if shared.isKeepAliveTimedOut then 1 else 0
    {
      var polls: bool := *;
      if polls {
        var c: Choices := *;
        var r := ponger.Poll(c);
        if r.KeepAliveTimedOut? {
          reports := reports + 1;
        }
      } else {
        Arrive(ponger);
      }
    }
    history := shared.history;
  }

  /** A frame arrives, with or without data. */
  method Arrive(ponger: Ponger)
    requires ponger.Valid()
    modifies ponger.shared
    ensures ponger.Valid() && ponger.shared.isKeepAliveTimedOut == old(ponger.shared.isKeepAliveTimedOut)
  {
    var shared := ponger.shared;
    var withData: bool := *;
    var len: nat :| 0 <= len;
    var passed: nat :| 0 <= passed;
    ghost var read := Then(shared.history, Recorded(shared.now + passed));
    assert Kept(read, ponger.config);
    if withData && (shared.bytes.Some? ==> shared.bytes.value + len < MAX_SAMPLE) {
      var passed2: nat :| 0 <= passed2;
      var passed3: nat :| 0 <= passed3;
      var ok: bool := *;
      shared.RecordData(len, passed, passed2, passed3, ok);
    } else {
      shared.RecordNonData(passed);
    }
  }

  /** A poll ten after the start, when a ping is due and cannot be sent. */
  lemma {:induction false} RefusedAtTen(v: View, w: View, c: Choices, r: Ponged)
    requires v.history == Started(0) && v.now == 10 && v.timer.Some? && v.timer.value.state == Init
    requires c == Choices(false, false, false, NotYet, false, 10, 0, 0, 0)
    requires var config := Config(true, Some(10), 20, true); PongOutcome(Turned(v, config, c), w, config, c, r, 10)
    ensures w == View(Then(Started(0), Attempt(10, false)), 10, Some(Timer(PingSent, 30)), v.measure)
  {
  }

  /** A poll at thirty, when the timer of that ping has gone off and another one is out. */
  lemma {:induction false} GivenUpAtThirty(v: View, w: View, c: Choices, r: Ponged)
    requires v.history == Then(Then(Then(Started(0), Attempt(10, false)), Recorded(29)), Probe(29))
    requires v.now == 30 && v.timer == Some(Timer(PingSent, 30))
    requires c == Choices(false, false, false, NotYet, false, 1, 0, 0, 0)
    requires var config := Config(true, Some(10), 20, true); PongOutcome(Turned(v, config, c), w, config, c, r, 30)
    ensures w.history == Then(v.history, TimedOut(30))
  {
    assert SentAt(v.history) == Some(29);
  }

  /** A ping is refused at ten, and data arrives at twenty-nine, just before the timer goes off. */
  method RefusedThenMeasured() returns (ponger: Ponger)
    ensures fresh(ponger) && fresh(ponger.shared) && (ponger.keepAlive != null ==> fresh(ponger.keepAlive))
    ensures (ponger.bdp != null ==> fresh(ponger.bdp)) && ponger.Valid() && ponger.config == Config(true, Some(10), 20, true)
    ensures ponger.shared.history == Then(Then(Then(Started(0), Attempt(10, false)), Recorded(29)), Probe(29))
    ensures ponger.shared.now == 29 && ponger.Now().timer == Some(Timer(PingSent, 30))
  {
    ponger := new Ponger(Config(true, Some(10), 20, true), 0);
    ghost var v := ponger.Now().(now := 10);
    var c := Choices(false, false, false, NotYet, false, 10, 0, 0, 0);
    var r := ponger.Poll(c);
    RefusedAtTen(v, ponger.Now(), c, r);
    ponger.shared.RecordData(1, 19, 0, 0, true);
  }

  /** The documentation says that the connection is closed when a pong is not received within the
      timeout after a keep-alive ping is sent. If the ping could not be sent and data then starts a
      measurement, it is closed although the only ping is one tick old, as is the last read. */
  method YoungPingTimesOut() returns (config: Config, history: History)
    ensures config == Config(true, Some(10), 20, true) && Kept(history, config)
    ensures var h := Then(Then(Then(Started(0), Attempt(10, false)), Recorded(29)), Probe(29));
            history == Then(h, TimedOut(30)) && !LeftPing(h) && SentAt(h) == Some(29)
  {
    config := Config(true, Some(10), 20, true);
    var ponger := RefusedThenMeasured();
    ghost var v := ponger.Now().(now := 30);
    var c := Choices(false, false, false, NotYet, false, 1, 0, 0, 0);
    var r := ponger.Poll(c);
    GivenUpAtThirty(v, ponger.Now(), c, r);
    history := ponger.shared.history;
  }
}
