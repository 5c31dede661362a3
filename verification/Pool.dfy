/** The connection pool (src/client/pool.rs). Every method below is what happens under one hold of
    the pool's lock; between them, anything may happen in any order. The futures and handles around
    the pool (`Checkout`, `Pooled`, `Connecting`) are part of the state, so that it can be said where
    each connection is. */
module Pool {
  import opened Bytes
  import opened IdleList

  type Key = nat
  /** A parked `Checkout`, by the order in which they parked. */
  type Waiter = nat

  /** Where a connection that cannot be shared is. */
  datatype Place = Nowhere | AtIdle(key: Key) | AtSent(waiter: Waiter) | AtHeld(key: Key)

  ghost predicate IdleOk(idle: map<Key, seq<Idle>>, max: nat, now: nat) {
    forall k :: k in idle ==> GoodList(idle[k], max, now)
  }

  /** Checkouts parked for a host, in order. */
  ghost predicate GoodWaiters(ws: seq<Waiter>, next: Waiter) {
    && ws != []
    && (forall i :: 0 <= i < |ws| ==> ws[i] < next)
    && Increasing(ws)
  }

  ghost predicate Increasing(ws: seq<Waiter>) {
    forall i, j :: 0 <= i < j < |ws| ==> ws[i] < ws[j]
  }

  ghost predicate ParkedList(ws: seq<Waiter>, k: Key, parkedFor: map<Waiter, Key>, sent: map<Waiter, Connection>) {
    forall i :: 0 <= i < |ws| ==> ws[i] !in sent && ws[i] in parkedFor && parkedFor[ws[i]] == k
  }

  ghost predicate WaitersOk(waiters: map<Key, seq<Waiter>>, next: Waiter, parkedFor: map<Waiter, Key>, sent: map<Waiter, Connection>) {
    && (forall k :: k in waiters ==> GoodWaiters(waiters[k], next) && ParkedList(waiters[k], k, parkedFor, sent))
    && (forall w :: w in parkedFor ==> w < next)
    && (forall w :: w in sent ==> w in parkedFor)
  }

  /** A list changed in a map of lists that has no empty ones. */
  function WithList<T>(m: map<Key, seq<T>>, key: Key, list: seq<T>): (r: map<Key, seq<T>>)
    ensures r - {key} == m - {key}
    ensures forall k :: k in r ==> k in m || k == key
  {
    if list == [] then m - {key} else m[key := list]
  }

  lemma Parks(waiters: map<Key, seq<Waiter>>, next: Waiter, parkedFor: map<Waiter, Key>, sent: map<Waiter, Connection>, key: Key)
    requires WaitersOk(waiters, next, parkedFor, sent)
    ensures var list := if key in waiters then waiters[key] else [];
            WaitersOk(waiters[key := list + [next]], next + 1, parkedFor[next := key], sent)
  {
    var list := if key in waiters then waiters[key] else [];
    assert ParkedList(list + [next], key, parkedFor[next := key], sent);
    assert GoodWaiters(list + [next], next + 1);
  }

  /** Sending to the first few checkouts of a host leaves the others as they were. */
  lemma WaitersAfterOffer(waiters: map<Key, seq<Waiter>>, next: Waiter, parkedFor: map<Waiter, Key>,
                          before: map<Waiter, Connection>, after: map<Waiter, Connection>, key: Key, n: nat)
    requires WaitersOk(waiters, next, parkedFor, before) && key in waiters && n <= |waiters[key]|
    requires forall w :: w in after && w !in before ==> w in waiters[key][..n]
    ensures var rest := waiters[key][n..];
            WaitersOk(WithList(waiters, key, rest), next, parkedFor, after)
  {
    var list, rest := waiters[key], waiters[key][n..];
    assert ParkedList(rest, key, parkedFor, after) by {
      forall i | 0 <= i < |rest| ensures rest[i] !in after {
        assert rest[i] == list[n + i];
      }
    }
    forall k | k in waiters && k != key ensures ParkedList(waiters[k], k, parkedFor, after) {
      assert ParkedList(list, key, parkedFor, before);
    }
  }

  /** Where connections are: which can be shared, how many there have been, and where the others are. */
  datatype Map = Map(place: map<nat, Place>, shared: set<nat>, next: nat) {
    ghost predicate Known(c: Connection) {
      c.id < next && (c.shareable <==> c.id in shared)
    }

    ghost predicate Is(c: Connection, p: Place) {
      Known(c) && (!c.shareable ==> c.id in place && place[c.id] == p)
    }

    ghost predicate AllAt(list: seq<Idle>, k: Key) {
      forall i :: 0 <= i < |list| ==> Is(list[i].conn, AtIdle(k))
    }
  }

  /** A connection that cannot be shared is in one place at most. */
  ghost predicate PlacesOk(idle: map<Key, seq<Idle>>, sent: map<Waiter, Connection>, held: map<nat, Key>, m: Map) {
    && (forall c :: c in m.shared ==> c < m.next)
    && (forall k :: k in idle ==> m.AllAt(idle[k], k))
    && (forall w :: w in sent ==> m.Is(sent[w], AtSent(w)))
    && (forall c :: c in held ==> m.Is(Connection(c, false), AtHeld(held[c])))
  }

  /** Putting a connection that is nowhere somewhere disturbs nothing else. */
  lemma Relocate(idle: map<Key, seq<Idle>>, sent: map<Waiter, Connection>, held: map<nat, Key>, m: Map, c: Connection, p: Place)
    requires PlacesOk(idle, sent, held, m) && m.Is(c, Nowhere) && !c.shareable
    ensures var n := m.(place := m.place[c.id := p]);
            PlacesOk(idle, sent, held, n) && n.Is(c, p)
  {
    var n := m.(place := m.place[c.id := p]);
    forall k | k in idle ensures n.AllAt(idle[k], k) {
      assert m.AllAt(idle[k], k);
    }
  }

  function ListOf(idle: map<Key, seq<Idle>>, key: Key): seq<Idle> {
    if key in idle then idle[key] else []
  }

  /** The newest idle connection of a host. */
  function PushedIdle(idle: map<Key, seq<Idle>>, key: Key, e: Idle): (r: map<Key, seq<Idle>>)
    ensures r == idle[key := ListOf(idle, key) + [e]] && r - {key} == idle - {key}
  {
    WithList(idle, key, ListOf(idle, key) + [e])
  }

  /** Where a connection is once it is idle. */
  ghost function NowIdle(m: Map, c: Connection, key: Key): Map {
    if c.shareable then m else m.(place := m.place[c.id := AtIdle(key)])
  }

  lemma PushedGood(idle: map<Key, seq<Idle>>, max: nat, now: nat, key: Key, c: Connection)
    requires IdleOk(idle, max, now) && |ListOf(idle, key)| < max
    requires forall i :: 0 <= i < |ListOf(idle, key)| ==> ListOf(idle, key)[i].conn.id != c.id
    requires c.shareable ==> key !in idle
    ensures IdleOk(PushedIdle(idle, key, Idle(now, c)), max, now)
  {
    OrderedSnoc(ListOf(idle, key), Idle(now, c), now, now);
  }

  /** A connection that is nowhere becomes the newest idle one of a host. */
  lemma Pushed(idle: map<Key, seq<Idle>>, sent: map<Waiter, Connection>, held: map<nat, Key>, m: Map, max: nat, now: nat, key: Key, c: Connection)
    requires PlacesOk(idle, sent, held, m) && IdleOk(idle, max, now)
    requires m.Is(c, Nowhere) && (c.shareable ==> key !in idle) && |ListOf(idle, key)| < max
    ensures PlacesOk(PushedIdle(idle, key, Idle(now, c)), sent, held, NowIdle(m, c, key))
    ensures IdleOk(PushedIdle(idle, key, Idle(now, c)), max, now)
  {
    assert m.AllAt(ListOf(idle, key), key);
    PushedGood(idle, max, now, key, c);
    if !c.shareable {
      Relocate(idle, sent, held, m, c, AtIdle(key));
    }
  }

  /** Taking a connection out of its place leaves it nowhere. */
  lemma Remove(idle: map<Key, seq<Idle>>, sent: map<Waiter, Connection>, held: map<nat, Key>, m: Map, c: Connection, from: Place)
    requires PlacesOk(idle, sent, held, m) && m.Is(c, from) && !c.shareable
    requires from.AtIdle? ==> from.key in idle ==> forall i :: 0 <= i < |idle[from.key]| ==> idle[from.key][i].conn.id != c.id
    requires from.AtSent? ==> from.waiter !in sent
    requires from.AtHeld? ==> c.id !in held
    ensures var n := m.(place := m.place[c.id := Nowhere]);
            PlacesOk(idle, sent, held, n) && n.Is(c, Nowhere)
  {
    var n := m.(place := m.place[c.id := Nowhere]);
    forall k | k in idle ensures n.AllAt(idle[k], k) {
      assert m.AllAt(idle[k], k);
    }
  }

  /** The hosts marked as connecting are exactly those of the live locks, and no two locks are for the
      same host. */
  ghost predicate LocksOk(connecting: set<Key>, locks: map<nat, Key>, next: nat) {
    && (forall l :: l in locks ==> l < next && locks[l] in connecting)
    && (forall k :: k in connecting ==> exists l :: l in locks && locks[l] == k)
    && (forall l, m :: l in locks && m in locks && l != m ==> locks[l] != locks[m])
  }

  /** A lock that goes away leaves no other for its host. */
  lemma Unlocked(connecting: set<Key>, locks: map<nat, Key>, next: nat, lock: nat)
    requires LocksOk(connecting, locks, next) && lock in locks
    ensures LocksOk(connecting - {locks[lock]}, locks - {lock}, next)
  {
    forall k | k in connecting - {locks[lock]} ensures exists l :: l in locks - {lock} && (locks - {lock})[l] == k {
      var l :| l in locks && locks[l] == k;
      assert l in locks - {lock};
    }
  }

  lemma Locked(connecting: set<Key>, locks: map<nat, Key>, next: nat, key: Key)
    requires LocksOk(connecting, locks, next) && key !in connecting
    ensures LocksOk(connecting + {key}, locks[next := key], next + 1)
  {
    var more := locks[next := key];
    forall k | k in connecting + {key} ensures exists l :: l in more && more[l] == k {
      if k == key {
        assert more[next] == k;
      } else {
        var l :| l in locks && locks[l] == k;
        assert more[l] == k;
      }
    }
  }

  /** What polling a parked checkout gives. */
  datatype Polled = Waiting | Got(conn: Connection) | Closed | Canceled

  class PoolInner {
    /** Hosts with a shared connection being established. */
    var connecting: set<Key>
    var idle: map<Key, seq<Idle>>
    var waiters: map<Key, seq<Waiter>>
    const maxIdlePerHost: nat
    const timeout: Option<nat>

    // The world around the pool.

    /** Parked checkouts whose owner has gone away. */
    var canceled: set<Waiter>
    /** The host each parked checkout parked for. */
    var parkedFor: map<Waiter, Key>
    /** Connections sent to parked checkouts and not yet picked up. */
    var sent: map<Waiter, Connection>
    /** Connections that cannot be shared and are in use, with the host they belong to. */
    var held: map<nat, Key>
    /** The `Connecting` values that are alive and hold a lock, each with its host. */
    var locks: map<nat, Key>
    var nextWaiter: Waiter
    var nextConn: nat
    var nextLock: nat
    var now: nat
    ghost var place: map<nat, Place>
    ghost var sharedIds: set<nat>

    /** A pool is only made for a positive limit. */
    constructor (maxIdlePerHost: nat, timeout: Option<nat>)
      requires maxIdlePerHost > 0
      ensures Valid() && this.maxIdlePerHost == maxIdlePerHost && this.timeout == timeout
    {
      this.maxIdlePerHost, this.timeout := maxIdlePerHost, timeout;
      connecting, idle, waiters := {}, map[], map[];
      canceled, parkedFor, sent, held, locks := {}, map[], map[], map[], map[];
      nextWaiter, nextConn, nextLock, now := 0, 0, 0, 0;
      place, sharedIds := map[], {};
    }

    // ----- the invariant -----

    /** No host has both idle connections and parked checkouts; every list has something in it, and
        no more than is allowed; checkouts wait in the order in which they parked. */
    ghost predicate ListsValid()
      reads this
    {
      && maxIdlePerHost > 0
      && idle.Keys !! waiters.Keys
      && IdleOk(idle, maxIdlePerHost, now)
      && WaitersOk(waiters, nextWaiter, parkedFor, sent)
    }

    ghost predicate PlacesValid()
      reads this
    {
      PlacesOk(idle, sent, held, Places())
    }

    ghost predicate LocksValid()
      reads this
    {
      LocksOk(connecting, locks, nextLock)
    }

    ghost predicate Valid()
      reads this
    {
      ListsValid() && PlacesValid() && LocksValid()
    }

    method Advance(at: nat)
      requires Valid() && now <= at
      modifies `now
      ensures Valid() && now == at
    {
      now := at;
      assert forall k :: k in idle ==> GoodList(idle[k], maxIdlePerHost, old(now)) ==> GoodList(idle[k], maxIdlePerHost, at);
    }

    // ----- put -----

    /** Offer the connection to these checkouts, oldest first, until it is gone or none is left. A
        checkout may be dropped at the very moment it is chosen. */
    method Offer(list: seq<Waiter>, value: Connection) returns (rest: seq<Waiter>, left: bool)
      requires PlacesValid() && Loose(value) && GoodWaiters(list, nextWaiter)
      requires forall i :: 0 <= i < |list| ==> list[i] !in sent
      modifies `canceled, `sent, `place
      ensures PlacesValid() && old(canceled) <= canceled
      ensures |rest| <= |list| && rest == list[|list| - |rest|..]
      ensures left ==> rest == [] && Loose(value)
      ensures value.shareable ==> left && SharedWith(list, value) && OnlyAdded(old(sent), list)
      ensures !value.shareable && left ==> AllGone(list) && sent == old(sent)
      ensures !left ==> !value.shareable && |rest| < |list| && FirstLive(list, |list| - |rest| - 1, value, old(sent))
    {
      left, rest := true, list;
      ghost var k := 0;
      while rest != [] && left
        invariant k <= |list| && rest == list[k..] && old(canceled) <= canceled
        invariant PlacesValid() && (left ==> Loose(value))
        invariant value.shareable ==> left && SharedUpTo(list, k, value) && OnlyAdded(old(sent), list)
        invariant !value.shareable && left ==> (forall i :: 0 <= i < k ==> list[i] in canceled) && sent == old(sent)
        invariant forall i :: k <= i < |list| ==> list[i] !in sent
        invariant !left ==> !value.shareable && 0 < k && FirstLive(list, k - 1, value, old(sent))
        decreases |rest|
      {
        var tx := rest[0];
        rest := rest[1..];
        assert tx == list[k] && forall i :: k < i < |list| ==> list[i] != tx;
        k := k + 1;
        left := OfferOne(tx, value);
      }
    }

    /** Offer the connection to one checkout, unless it has gone or goes now; is it still there? */
    method OfferOne(tx: Waiter, value: Connection) returns (left: bool)
      requires PlacesValid() && Loose(value) && tx !in sent
      modifies `canceled, `sent, `place
      ensures PlacesValid() && (left ==> Loose(value)) && old(canceled) <= canceled
      ensures if tx in canceled then left && sent == old(sent)
              else left == value.shareable && sent == old(sent)[tx := value] && canceled == old(canceled)
    {
      left := true;
      if tx !in canceled {
        var dropsNow: bool := *;
        if dropsNow {
          canceled := canceled + {tx};
        } else {
          Send(tx, value);
          left := value.shareable;
        }
      }
    }

    /** A copy of a shared connection, or the connection itself, goes to a checkout. */
    method Send(tx: Waiter, value: Connection)
      requires PlacesValid() && Loose(value) && tx !in sent
      modifies `sent, `place
      ensures PlacesValid() && sent == old(sent)[tx := value]
      ensures value.shareable ==> Loose(value)
    {
      if !value.shareable {
        Relocate(idle, sent, held, Places(), value, AtSent(tx));
        place := place[value.id := AtSent(tx)];
      }
      sent := sent[tx := value];
    }

    ghost predicate AllGone(list: seq<Waiter>)
      reads `canceled
    {
      forall i :: 0 <= i < |list| ==> list[i] in canceled
    }

    ghost predicate SharedWith(list: seq<Waiter>, value: Connection)
      reads `canceled, `sent
    {
      SharedUpTo(list, |list|, value)
    }

    ghost predicate SharedUpTo(list: seq<Waiter>, k: nat, value: Connection)
      requires k <= |list|
      reads `canceled, `sent
    {
      forall i :: 0 <= i < k ==> list[i] in canceled || (list[i] in sent && sent[list[i]] == value)
    }

    /** The oldest checkout that was still wanted got the connection. */
    ghost predicate FirstLive(list: seq<Waiter>, k: nat, value: Connection, before: map<Waiter, Connection>)
      requires k < |list|
      reads `canceled, `sent
    {
      && (forall i :: 0 <= i < k ==> list[i] in canceled) && list[k] !in canceled
      && sent == before[list[k] := value]
    }

    ghost predicate OnlyAdded(before: map<Waiter, Connection>, list: seq<Waiter>)
      reads `sent
    {
      && (forall w :: w in before ==> w in sent && sent[w] == before[w])
      && (forall w :: w in sent && w !in before ==> w in list)
    }

    ghost function Places(): Map
      reads this
    {
      Map(place, sharedIds, nextConn)
    }

    /** The connection is not in any of the places where connections are kept. */
    ghost predicate Loose(c: Connection)
      reads this
    {
      Places().Is(c, Nowhere)
    }

    /** The part of `put` that serves parked checkouts. */
    method OfferToWaiters(key: Key, value: Connection) returns (left: bool)
      requires Valid() && key in waiters && Loose(value)
      modifies `waiters, `canceled, `sent, `place
      ensures Valid() && old(canceled) <= canceled
      ensures waiters - {key} == old(waiters) - {key}
      ensures left ==> key !in waiters && Loose(value)
      ensures var list := old(waiters)[key];
              && (value.shareable ==> left && SharedWith(list, value) && OnlyAdded(old(sent), list))
              && (!value.shareable && left ==> AllGone(list) && sent == old(sent))
              && (!left ==> !value.shareable && exists k :: 0 <= k < |list| && DeliveredTo(list, k, value, old(sent), key))
    {
      var list := waiters[key];
      var rest;
      rest, left := Offer(list, value);
      WaitersAfterOffer(waiters, nextWaiter, parkedFor, old(sent), sent, key, |list| - |rest|);
      waiters := WithList(waiters, key, rest);
      if !left {
        assert DeliveredTo(list, |list| - |rest| - 1, value, old(sent), key);
      }
    }

    ghost predicate DeliveredTo(list: seq<Waiter>, k: nat, value: Connection, before: map<Waiter, Connection>, key: Key)
      requires k < |list|
      reads this
    {
      && FirstLive(list, k, value, before)
      && (if k + 1 < |list| then key in waiters && waiters[key] == list[k + 1..] else key !in waiters)
    }

    /** The part of `put` that keeps a connection for later, unless there are enough already. */
    method PushIdle(key: Key, value: Connection)
      requires Valid() && key !in waiters && Loose(value) && (value.shareable ==> key !in idle)
      modifies `idle, `place
      ensures Valid() && idle - {key} == old(idle) - {key}
      ensures var list := ListOf(old(idle), key);
              idle == if |list| < maxIdlePerHost then old(idle)[key := list + [Idle(now, value)]] else old(idle)
    {
      if |ListOf(idle, key)| < maxIdlePerHost {
        Keep(key, value);
      }
    }

    method Keep(key: Key, value: Connection)
      requires Valid() && key !in waiters && Loose(value) && (value.shareable ==> key !in idle)
      requires |ListOf(idle, key)| < maxIdlePerHost
      modifies `idle, `place
      ensures Valid() && idle == PushedIdle(old(idle), key, Idle(now, value))
    {
      Pushed(idle, sent, held, Places(), maxIdlePerHost, now, key, value);
      if !value.shareable {
        place := place[value.id := AtIdle(key)];
      }
      idle := PushedIdle(idle, key, Idle(now, value));
    }

    /** A connection that cannot be shared has gone to the oldest checkout that still wants it; if there
        is none it is the newest idle connection, unless the host has enough of them. */
    twostate predicate GivenOrKept(key: Key, value: Connection)
      reads this
    {
      var kept := ListOf(old(idle), key);
      && idle - {key} == old(idle) - {key} && waiters - {key} == old(waiters) - {key}
      && if key in old(waiters) && !AllGone(old(waiters)[key]) then
           && idle == old(idle)
           && exists k :: 0 <= k < |old(waiters)[key]| && DeliveredTo(old(waiters)[key], k, value, old(sent), key)
         else
           && sent == old(sent) && key !in waiters
           && idle == if |kept| < maxIdlePerHost then old(idle)[key := kept + [Idle(now, value)]] else old(idle)
    }

    /** `put`. */
    method Put(key: Key, value: Connection)
      requires Valid() && Loose(value)
      modifies `idle, `waiters, `canceled, `sent, `place
      ensures Valid() && old(canceled) <= canceled
      ensures idle - {key} == old(idle) - {key} && waiters - {key} == old(waiters) - {key}
      ensures value.shareable && key in old(idle) ==>
                idle == old(idle) && waiters == old(waiters) && sent == old(sent)
      ensures value.shareable && key !in old(idle) ==>
                && key !in waiters && idle == old(idle)[key := [Idle(now, value)]]
                && if key in old(waiters) then SharedWith(old(waiters)[key], value) && OnlyAdded(old(sent), old(waiters)[key])
                   else sent == old(sent)
      ensures !value.shareable ==> GivenOrKept(key, value)
    {
      if value.shareable && key in idle {
        return;
      }
      var left := true;
      if key in waiters {
        left := OfferToWaiters(key, value);
      }
      if left {
        PushIdle(key, value);
        assert [] + [Idle(now, value)] == [Idle(now, value)];
      }
    }

    /** `connected`, on behalf of a lock that goes away, and with it any checkout still parked for its
        host. The source asserts that the host was marked; it was, since the lock is alive, and no
        other lock needs the mark. */
    method Connected(lock: nat)
      requires Valid() && lock in locks
      modifies `connecting, `locks, `waiters
      ensures Valid() && old(locks)[lock] in old(connecting)
      ensures connecting == old(connecting) - {old(locks)[lock]} && locks == old(locks) - {lock}
      ensures waiters == old(waiters) - {old(locks)[lock]}
    {
      var key := locks[lock];
      assert key in connecting;
      Unlocked(connecting, locks, nextLock, lock);
      connecting := connecting - {key};
      waiters := waiters - {key};
      locks := locks - {lock};
    }

    // ----- the rest of the pool -----

    /** `clean_waiters`: forget the parked checkouts of a host that have gone away. */
    method CleanWaiters(key: Key)
      requires Valid()
      modifies `waiters
      ensures Valid() && waiters - {key} == old(waiters) - {key}
      ensures key in old(waiters) ==>
                var live := Live(old(waiters)[key], canceled);
                if live == [] then key !in waiters else key in waiters && waiters[key] == live
      ensures key !in old(waiters) ==> waiters == old(waiters)
    {
      if key in waiters {
        var live := Live(waiters[key], canceled);
        LiveGood(waiters[key], canceled, nextWaiter, key, parkedFor, sent);
        waiters := WithList(waiters, key, live);
      }
    }

    /** `clear_expired`: drop what has been closed or has been idle for too long. */
    method ClearExpired(open: set<nat>, at: nat)
      requires Valid() && timeout.Some? && at >= now
      modifies `idle, `now
      ensures Valid() && now == at
      ensures idle.Keys <= old(idle).Keys
      ensures forall k, x :: k in old(idle) && x in old(idle)[k] ==>
                ((k in idle && x in idle[k]) <==> x.conn.id in open && at - x.idleAt <= timeout.value)
      ensures forall k :: k in idle ==> InOrder(idle[k], old(idle)[k]) && forall x :: x in idle[k] ==> x in old(idle)[k]
    {
      forall k | k in idle ensures InOrder(Retain(idle[k], open, timeout.value, at), idle[k]) {
        RetainInOrder(idle[k], open, timeout.value, at);
      }
      Cleared(idle, open, timeout.value, at, maxIdlePerHost, now, sent, held, Places());
      idle := ClearedIdle(idle, open, timeout.value, at);
      now := at;
    }

    // ----- checkouts -----

    /** A connection that cannot be shared is now in use. */
    method Hold(key: Key, c: Connection)
      requires Valid() && Loose(c)
      modifies `held, `place
      ensures Valid() && held == if c.shareable then old(held) else old(held)[c.id := key]
    {
      if !c.shareable {
        Relocate(idle, sent, held, Places(), c, AtHeld(key));
        place := place[c.id := AtHeld(key)];
        held := held[c.id := key];
      }
    }

    /** The newest usable idle connection of the host is taken, and only that host has changed. */
    ghost predicate TookNewest(before: map<Key, seq<Idle>>, key: Key, open: set<nat>, clock: nat -> nat, c: Connection)
      reads this
    {
      key in before && exists k: nat ::
        && NewestUsable(before[key], open, timeout, clock, k) && c == before[key][k].conn
        && idle == WithList(before, key, LeftAfter(before[key], open, clock, k))
    }

    /** Take an idle connection of the host, if there is one that is usable. */
    method TakeIdle(key: Key, open: set<nat>, clock: nat -> nat) returns (r: Option<Connection>)
      requires Valid() && Monotone(clock) && forall n: nat :: now <= clock(n)
      modifies `idle, `place, `now
      ensures Valid() && now >= old(now)
      ensures r.None? ==> idle == old(idle) - {key} && (key in old(idle) ==> NoneUsable(old(idle)[key], open, timeout, clock))
      ensures r.Some? ==> TookNewest(old(idle), key, open, clock, r.value) && Loose(r.value) && r.value.id in open
    {
      if key !in idle {
        assert idle - {key} == idle;
        return None;
      }
      var list := idle[key];
      var entry, rest := Pop(list, open, timeout, clock);
      if entry.None? {
        idle := idle - {key};
        return None;
      }
      var c := entry.value.conn;
      ghost var k: nat :| NewestUsable(list, open, timeout, clock, k) && entry.value == list[k] && rest == LeftAfter(list, open, clock, k);
      if c.shareable {
        var stamp := rest[|rest| - 1].idleAt;
        KeepShared(key, |rest| - 1, stamp);
      } else {
        assert rest == list[..k];
        Detach(key, |rest|);
      }
      assert idle == WithList(old(idle), key, rest);
      return Some(c);
    }

    /** A shareable connection is handed out and stays as the newest entry. */
    method KeepShared(key: Key, k: nat, stamp: nat)
      requires Valid() && key in idle && k < |idle[key]| && idle[key][k].conn.shareable && stamp >= now
      modifies `idle, `now
      ensures Valid() && now == stamp && Loose(old(idle)[key][k].conn)
      ensures idle == old(idle)[key := old(idle)[key][..k] + [Idle(stamp, old(idle)[key][k].conn)]]
    {
      var list := idle[key];
      assert Places().AllAt(list, key) && Places().Is(list[k].conn, AtIdle(key));
      var rest := list[..k] + [Idle(stamp, list[k].conn)];
      OrderedSnoc(list[..k], Idle(stamp, list[k].conn), now, stamp);
      idle := idle[key := rest];
      now := stamp;
      assert GoodList(rest, maxIdlePerHost, now);
      assert Places().AllAt(rest, key);
    }

    /** Any other connection leaves the list, with everything newer. */
    method Detach(key: Key, k: nat)
      requires Valid() && key in idle && k < |idle[key]| && !idle[key][k].conn.shareable
      modifies `idle, `place
      ensures Valid() && Loose(old(idle)[key][k].conn)
      ensures idle == if k == 0 then old(idle) - {key} else old(idle)[key := old(idle)[key][..k]]
    {
      var list := idle[key];
      var c := list[k].conn;
      assert Places().AllAt(list, key) && Places().Is(c, AtIdle(key));
      idle := if k == 0 then idle - {key} else idle[key := list[..k]];
      Remove(idle, sent, held, Places(), c, AtIdle(key));
      place := place[c.id := Nowhere];
    }

    /** `Checkout::checkout`: an idle connection, or a place in the queue of the host. */
    method Checkout(key: Key, open: set<nat>, clock: nat -> nat) returns (r: Result<Connection, Waiter>)
      requires Valid() && Monotone(clock) && forall n: nat :: now <= clock(n)
      modifies `idle, `waiters, `parkedFor, `nextWaiter, `held, `place, `now
      ensures Valid()
      ensures r.Ok? ==>
                && TookNewest(old(idle), key, open, clock, r.value) && waiters == old(waiters)
                && held == if r.value.shareable then old(held) else old(held)[r.value.id := key]
      ensures r.Err? ==>
                && (key in old(idle) ==> NoneUsable(old(idle)[key], open, timeout, clock))
                && idle == old(idle) - {key} && held == old(held) && r.error == old(nextWaiter)
                && waiters == old(waiters)[key := (if key in old(waiters) then old(waiters)[key] else []) + [r.error]]
    {
      var taken := TakeIdle(key, open, clock);
      if taken.Some? {
        Hold(key, taken.value);
        return Ok(taken.value);
      }
      var w := Park(key);
      return Err(w);
    }

    method Park(key: Key) returns (w: Waiter)
      requires Valid() && key !in idle
      modifies `waiters, `parkedFor, `nextWaiter
      ensures Valid() && w == old(nextWaiter)
      ensures waiters == old(waiters)[key := (if key in old(waiters) then old(waiters)[key] else []) + [w]]
    {
      w := nextWaiter;
      var list := if key in waiters then waiters[key] else [];
      Parks(waiters, nextWaiter, parkedFor, sent, key);
      nextWaiter := nextWaiter + 1;
      parkedFor := parkedFor[w := key];
      waiters := waiters[key := list + [w]];
    }

    /** `Checkout::poll_waiter`: what was sent, unless it has closed since; canceled once the pool has
        forgotten the checkout without sending anything. */
    method PollWaiter(w: Waiter, open: set<nat>) returns (r: Polled)
      requires Valid() && w in parkedFor
      modifies `sent, `held, `place
      ensures Valid() && sent == old(sent) - {w}
      ensures w !in old(sent) ==> held == old(held) && r == if Parked(w) then Waiting else Canceled
      ensures w in old(sent) ==>
                var c := old(sent)[w];
                && !Parked(w) && r == (if c.id in open then Got(c) else Closed)
                && held == if c.id in open && !c.shareable then old(held)[c.id := parkedFor[w]] else old(held)
    {
      if w !in sent {
        return if Parked(w) then Waiting else Canceled;
      }
      var c := sent[w];
      Unsend(w);
      if c.id !in open {
        return Closed;
      }
      Hold(parkedFor[w], c);
      return Got(c);
    }

    /** The pool still knows of the checkout. */
    predicate Parked(w: Waiter)
      requires w in parkedFor
      reads `parkedFor, `waiters
    {
      parkedFor[w] in waiters && w in waiters[parkedFor[w]]
    }

    /** What was sent to a checkout is taken out, or lost with it. */
    method Unsend(w: Waiter)
      requires Valid() && w in sent
      modifies `sent, `place
      ensures Valid() && sent == old(sent) - {w} && Loose(old(sent)[w])
    {
      var c := sent[w];
      sent := sent - {w};
      if !c.shareable {
        Remove(idle, sent, held, Places(), c, AtSent(w));
        place := place[c.id := Nowhere];
      }
    }

    /** The owner of a parked checkout goes away; `clean_waiters` follows some time later. */
    method CancelWaiter(w: Waiter)
      requires Valid()
      modifies `canceled, `sent, `place
      ensures Valid() && canceled == old(canceled) + {w} && sent == old(sent) - {w}
    {
      canceled := canceled + {w};
      if w in sent {
        Unsend(w);
      }
    }

    /** A connection that was in use is done with; it goes back unless it has closed. */
    method DropPooled(c: nat, open: set<nat>)
      requires Valid() && c in held
      modifies `held, `idle, `waiters, `canceled, `sent, `place
      ensures Valid() && held == old(held) - {c}
      ensures c !in open ==> idle == old(idle) && waiters == old(waiters) && sent == old(sent)
      ensures c in open ==> GivenOrKept(old(held)[c], Connection(c, false))
    {
      var key := held[c];
      assert Places().Is(Connection(c, false), AtHeld(key));
      held := held - {c};
      Remove(idle, sent, held, Places(), Connection(c, false), AtHeld(key));
      place := place[c := Nowhere];
      if c in open {
        Put(key, Connection(c, false));
      }
    }

    // ----- new connections -----

    /** `connecting` for HTTP/2: a lock, unless there is one for the host. */
    method TryLock(key: Key) returns (r: Option<nat>)
      requires Valid()
      modifies `connecting, `locks, `nextLock
      ensures Valid() && (r.None? <==> exists l :: l in old(locks) && old(locks)[l] == key)
      ensures r.Some? ==> r.value !in old(locks) && locks == old(locks)[r.value := key]
      ensures r.None? ==> locks == old(locks)
    {
      if key in connecting {
        return None;
      }
      Locked(connecting, locks, nextLock, key);
      connecting := connecting + {key};
      locks := locks[nextLock := key];
      nextLock := nextLock + 1;
      return Some(nextLock - 1);
    }

    /** A new connection exists. */
    method NewConn(shareable: bool) returns (c: Connection)
      requires Valid()
      modifies `nextConn, `place, `sharedIds
      ensures Valid() && Loose(c) && c.shareable == shareable && c.id == old(nextConn)
    {
      c := Connection(nextConn, shareable);
      FreshConn(idle, sent, held, Places(), shareable);
      nextConn := nextConn + 1;
      if shareable {
        sharedIds := sharedIds + {c.id};
      } else {
        place := place[c.id := Nowhere];
      }
      assert Places() == OneMore(old(Places()), shareable);
    }

    /** `pooled` for a connection that cannot be shared. */
    method PooledUnique(key: Key) returns (c: Connection)
      requires Valid()
      modifies `nextConn, `place, `sharedIds, `held
      ensures Valid() && !c.shareable && held == old(held)[c.id := key]
    {
      c := NewConn(false);
      Hold(key, c);
    }

    /** `pooled` for a shared connection: it is put into the pool, and then its lock goes away. No
        checkout that is still wanted loses its place by that: each has been sent the connection. */
    method PooledShared(lock: nat) returns (c: Connection)
      requires Valid() && lock in locks
      modifies `nextConn, `place, `sharedIds, `idle, `waiters, `canceled, `sent, `connecting, `locks
      ensures Valid() && c.shareable && c.id == old(nextConn) && locks == old(locks) - {lock}
      ensures var key := old(locks)[lock];
              && waiters == old(waiters) - {key}
              && idle == (if key in old(idle) then old(idle) else old(idle)[key := [Idle(now, c)]])
              && (key in old(waiters) ==> SharedWith(old(waiters)[key], c))
    {
      var key := locks[lock];
      c := NewConn(true);
      Put(key, c);
      Connected(lock);
    }

    /** A `Connecting` that holds a lock is dropped without a connection. */
    method DropConnecting(lock: nat)
      requires Valid() && lock in locks
      modifies `connecting, `locks, `waiters
      ensures Valid() && locks == old(locks) - {lock} && waiters == old(waiters) - {old(locks)[lock]}
    {
      Connected(lock);
    }
  }

  /** There is one more connection, and it is nowhere yet. */
  ghost function OneMore(m: Map, shareable: bool): Map {
    if shareable then Map(m.place, m.shared + {m.next}, m.next + 1)
    else Map(m.place[m.next := Nowhere], m.shared, m.next + 1)
  }

  lemma FreshConn(idle: map<Key, seq<Idle>>, sent: map<Waiter, Connection>, held: map<nat, Key>, m: Map, shareable: bool)
    requires PlacesOk(idle, sent, held, m)
    ensures PlacesOk(idle, sent, held, OneMore(m, shareable))
    ensures OneMore(m, shareable).Is(Connection(m.next, shareable), Nowhere)
  {
    var n := OneMore(m, shareable);
    forall k | k in idle ensures n.AllAt(idle[k], k) {
      assert m.AllAt(idle[k], k);
    }
  }

  /** The idle connections that are left after clearing, by host. */
  function ClearedIdle(idle: map<Key, seq<Idle>>, open: set<nat>, timeout: nat, at: nat): map<Key, seq<Idle>> {
    map k | k in idle && Retain(idle[k], open, timeout, at) != [] :: Retain(idle[k], open, timeout, at)
  }

  lemma Cleared(idle: map<Key, seq<Idle>>, open: set<nat>, timeout: nat, at: nat, max: nat, now: nat,
                sent: map<Waiter, Connection>, held: map<nat, Key>, m: Map)
    requires IdleOk(idle, max, now) && now <= at && PlacesOk(idle, sent, held, m)
    ensures var r := ClearedIdle(idle, open, timeout, at);
            IdleOk(r, max, at) && PlacesOk(r, sent, held, m)
  {
    var r := ClearedIdle(idle, open, timeout, at);
    forall k | k in r ensures GoodList(r[k], max, at) && m.AllAt(r[k], k) {
      RetainOrdered(idle[k], open, timeout, at, now);
      assert m.AllAt(idle[k], k);
      forall i | 0 <= i < |r[k]| ensures m.Is(r[k][i].conn, AtIdle(k)) {
        assert r[k][i] in idle[k];
      }
    }
  }

  /** The checkouts that have not gone away. */
  function Live(ws: seq<Waiter>, canceled: set<Waiter>): (r: seq<Waiter>)
    ensures forall w :: w in r <==> w in ws && w !in canceled
  {
    if ws == [] then []
    else
      var w, rest := ws[|ws| - 1], ws[..|ws| - 1];
      assert ws == rest + [w];
      if w in canceled then Live(rest, canceled) else Live(rest, canceled) + [w]
  }

  lemma {:induction false} LiveOrdered(ws: seq<Waiter>, canceled: set<Waiter>)
    requires Increasing(ws)
    ensures Increasing(Live(ws, canceled))
    decreases |ws|
  {
    if ws != [] {
      var w, rest := ws[|ws| - 1], ws[..|ws| - 1];
      LiveOrdered(rest, canceled);
      var r: seq<Waiter> := Live(rest, canceled);
      forall i | 0 <= i < |r| ensures r[i] < w {
        assert r[i] in rest;
        var j :| 0 <= j < |rest| && rest[j] == r[i];
        assert ws[j] == r[i];
      }
      assert Increasing(r + [w]);
    }
  }

  lemma LiveGood(ws: seq<Waiter>, canceled: set<Waiter>, next: Waiter, k: Key, parkedFor: map<Waiter, Key>, sent: map<Waiter, Connection>)
    requires GoodWaiters(ws, next) && ParkedList(ws, k, parkedFor, sent)
    ensures var r := Live(ws, canceled); (r != [] ==> GoodWaiters(r, next)) && ParkedList(r, k, parkedFor, sent)
  {
    LiveOrdered(ws, canceled);
    var r: seq<Waiter> := Live(ws, canceled);
    forall i | 0 <= i < |r| ensures r[i] < next && r[i] !in sent && r[i] in parkedFor && parkedFor[r[i]] == k {
      assert r[i] in ws;
    }
  }

  // ----- whole runs -----

  /** A connection that cannot be shared has one owner at most: it is idle once, for one host, or on
      its way to one checkout, or in use. */
  ghost predicate OneOwner(idle: map<Key, seq<Idle>>, sent: map<Waiter, Connection>, held: map<nat, Key>) {
    && (forall k, l, i, j ::
          (k in idle && l in idle && 0 <= i < |idle[k]| && 0 <= j < |idle[l]|
           && !idle[k][i].conn.shareable && idle[k][i].conn.id == idle[l][j].conn.id)
          ==> k == l && i == j)
    && (forall k, i, w :: k in idle && 0 <= i < |idle[k]| && w in sent && !sent[w].shareable ==> idle[k][i].conn.id != sent[w].id)
    && (forall k, i :: k in idle && 0 <= i < |idle[k]| ==> idle[k][i].conn.id !in held)
    && (forall v, w :: v in sent && w in sent && v != w && !sent[v].shareable ==> sent[v].id != sent[w].id)
    && (forall w :: w in sent ==> sent[w].id !in held)
  }

  lemma PlacedOnce(idle: map<Key, seq<Idle>>, sent: map<Waiter, Connection>, held: map<nat, Key>, m: Map, max: nat, now: nat)
    requires PlacesOk(idle, sent, held, m) && IdleOk(idle, max, now)
    ensures OneOwner(idle, sent, held)
  {
    forall k, i | k in idle && 0 <= i < |idle[k]| ensures m.Is(idle[k][i].conn, AtIdle(k)) {
      assert m.AllAt(idle[k], k);
    }
    forall k, l, i, j | k in idle && l in idle && 0 <= i < |idle[k]| && 0 <= j < |idle[l]|
      && !idle[k][i].conn.shareable && idle[k][i].conn.id == idle[l][j].conn.id
      ensures k == l && i == j
    {
      assert m.Is(idle[k][i].conn, AtIdle(k)) && m.Is(idle[l][j].conn, AtIdle(l));
      assert k == l && GoodList(idle[k], max, now);
    }
  }

  /** Any number of steps, by anyone, in any order: no connection gets two owners, a host never has
      both an idle connection and a parked checkout, and no two live locks are for the same host. */
  method Run(maxIdlePerHost: nat, timeout: Option<nat>, clock: nat -> nat, steps: nat)
    returns (idle: map<Key, seq<Idle>>, waiters: map<Key, seq<Waiter>>, sent: map<Waiter, Connection>, held: map<nat, Key>,
             connecting: set<Key>, locks: map<nat, Key>, now: nat)
    requires maxIdlePerHost > 0 && Monotone(clock)
    ensures OneOwner(idle, sent, held)
    ensures idle.Keys !! waiters.Keys
    ensures forall k :: k in idle ==> GoodList(idle[k], maxIdlePerHost, now)
    ensures forall k :: k in waiters ==> waiters[k] != [] && Increasing(waiters[k])
    ensures forall k :: k in connecting <==> exists l :: l in locks && locks[l] == k
    ensures forall l, m :: l in locks && m in locks && l != m ==> locks[l] != locks[m]
  {
    var pool := new PoolInner(maxIdlePerHost, timeout);
    for step := 0 to steps
      invariant fresh(pool) && pool.Valid() && pool.maxIdlePerHost == maxIdlePerHost
    {
      var tick: nat := *;
      if pool.now <= clock(tick) {
        pool.Advance(clock(tick));
        Step(pool, From(clock, tick));
      }
    }
    idle, waiters, sent, held := pool.idle, pool.waiters, pool.sent, pool.held;
    connecting, locks, now := pool.connecting, pool.locks, pool.now;
    PlacedOnce(idle, sent, held, pool.Places(), pool.maxIdlePerHost, pool.now);
    assert forall k :: k in waiters ==> GoodWaiters(waiters[k], pool.nextWaiter);
  }

  /** What is left of a clock after some of its readings. */
  function From(clock: nat -> nat, tick: nat): (r: nat -> nat)
    requires Monotone(clock)
    ensures Monotone(r) && forall n: nat :: clock(tick) <= r(n)
  {
    (n: nat) => clock(tick + n)
  }

  method Step(pool: PoolInner, clock: nat -> nat)
    requires pool.Valid() && Monotone(clock) && forall n: nat :: pool.now <= clock(n)
    modifies pool
    ensures pool.Valid()
  {
    var op: nat := *;
    var key: Key := *;
    var w: Waiter := *;
    var c: nat := *;
    var open: set<nat> := *;
    if
    case op == 0 => var _ := pool.Checkout(key, open, clock);
    case op == 1 && w in pool.parkedFor => var _ := pool.PollWaiter(w, open);
    case op == 2 => pool.CancelWaiter(w);
    case op == 3 => pool.CleanWaiters(key);
    case op == 4 && c in pool.held => pool.DropPooled(c, open);
    case op == 5 => var _ := pool.TryLock(key);
    case op == 6 => var _ := pool.PooledUnique(key);
    case op == 7 && c in pool.locks => var _ := pool.PooledShared(c);
    case op == 8 && c in pool.locks => pool.DropConnecting(c);
    case op == 9 && pool.timeout.Some? => pool.ClearExpired(open, pool.now);
    case true =>
  }
}
