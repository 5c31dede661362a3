/** Idle connections of one host, oldest first, and how one is taken (src/client/pool.rs). */
module IdleList {
  import opened Bytes

  /** A connection. A shareable one (HTTP/2) can be handed out while a copy stays in the pool. */
  datatype Connection = Connection(id: nat, shareable: bool)

  datatype Idle = Idle(idleAt: nat, conn: Connection)

  /** `Expiration::expires`, at the time `now`; the elapsed time never goes below zero. */
  predicate Expires(timeout: Option<nat>, idleAt: nat, now: nat) {
    timeout.Some? && now >= idleAt && now - idleAt > timeout.value
  }

  ghost predicate Sorted(list: seq<Idle>) {
    forall i, j :: 0 <= i < j < |list| ==> list[i].idleAt <= list[j].idleAt
  }

  /** A clock read over and over never goes back. */
  ghost predicate Monotone(clock: nat -> nat) {
    forall i: nat, j: nat :: i <= j ==> clock(i) <= clock(j)
  }

  datatype Popped = Popped(entry: Option<Idle>, list: seq<Idle>)

  /** The entry is taken; a shareable connection goes back in under the current time. */
  function Taken(e: Idle, rest: seq<Idle>, now: nat): Popped {
    Popped(Some(e), if e.conn.shareable then rest + [Idle(now, e.conn)] else rest)
  }

  /** The existing loop: go back from the newest entry, dropping those that are closed or expired.
      The clock is read once for each entry that is open, and once more for one that goes back in. */
  function PopLoop(list: seq<Idle>, open: set<nat>, timeout: Option<nat>, clock: nat -> nat, tick: nat): Popped {
    if list == [] then Popped(None, [])
    else
      var e, rest := list[|list| - 1], list[..|list| - 1];
      if e.conn.id !in open then PopLoop(rest, open, timeout, clock, tick)
      else if Expires(timeout, e.idleAt, clock(tick)) then PopLoop(rest, open, timeout, clock, tick + 1)
      else Taken(e, rest, clock(tick + 1))
  }

  /** What the TODO in the source asks about: drop the whole list at the first expired entry. */
  function PopEarlyExit(list: seq<Idle>, open: set<nat>, timeout: Option<nat>, clock: nat -> nat, tick: nat): Popped {
    if list == [] then Popped(None, [])
    else
      var e, rest := list[|list| - 1], list[..|list| - 1];
      if e.conn.id !in open then PopEarlyExit(rest, open, timeout, clock, tick)
      else if Expires(timeout, e.idleAt, clock(tick)) then Popped(None, [])
      else Taken(e, rest, clock(tick + 1))
  }

  /** Nothing older than an expired entry is usable. */
  lemma {:induction false} AllExpired(list: seq<Idle>, open: set<nat>, timeout: Option<nat>, clock: nat -> nat, tick: nat, at: nat)
    requires Monotone(clock) && timeout.Some?
    requires forall i :: 0 <= i < |list| ==> list[i].idleAt <= at
    requires Expires(timeout, at, clock(tick))
    ensures PopLoop(list, open, timeout, clock, tick) == Popped(None, [])
    decreases |list|
  {
    if list != [] {
      var e, rest := list[|list| - 1], list[..|list| - 1];
      AllExpired(rest, open, timeout, clock, tick, at);
      assert clock(tick) <= clock(tick + 1);
      AllExpired(rest, open, timeout, clock, tick + 1, at);
    }
  }

  /** The early exit asked about in the TODO takes the same entry and leaves the same list, because
      the lists are sorted. */
  lemma {:induction false} EarlyExitIsTheSame(list: seq<Idle>, open: set<nat>, timeout: Option<nat>, clock: nat -> nat, tick: nat)
    requires Monotone(clock) && Sorted(list)
    ensures PopEarlyExit(list, open, timeout, clock, tick) == PopLoop(list, open, timeout, clock, tick)
    decreases |list|
  {
    if list != [] {
      var e, rest := list[|list| - 1], list[..|list| - 1];
      EarlyExitIsTheSame(rest, open, timeout, clock, tick);
      if e.conn.id in open && Expires(timeout, e.idleAt, clock(tick)) {
        assert clock(tick) <= clock(tick + 1);
        AllExpired(rest, open, timeout, clock, tick + 1, e.idleAt);
      }
    }
  }

  /** On a list that is not sorted it would not be. */
  lemma EarlyExitNeedsSorting()
    ensures var list := [Idle(9, Connection(0, false)), Idle(1, Connection(1, false))];
            var clock := (i: nat) => 10;
            && Monotone(clock) && !Sorted(list)
            && PopLoop(list, {0, 1}, Some(5), clock, 0) == Popped(Some(list[0]), [])
            && PopEarlyExit(list, {0, 1}, Some(5), clock, 0) == Popped(None, [])
  {
    var list := [Idle(9, Connection(0, false)), Idle(1, Connection(1, false))];
    assert list[0].idleAt > list[1].idleAt;
    var rest := list[..1];
    assert rest == [list[0]] && rest[..0] == [];
    var clock := (i: nat) => 10;
    assert PopLoop(rest, {0, 1}, Some(5), clock, 1) == Popped(Some(list[0]), []);
  }

  // ----- what is taken, said without the loop -----

  /** How many entries after this one are open: the clock is read once for each before this one's turn. */
  function OpenAfter(list: seq<Idle>, open: set<nat>, k: nat): nat
    requires k < |list|
    decreases |list| - k
  {
    if k + 1 == |list| then 0
    else OpenAfter(list, open, k + 1) + if list[k + 1].conn.id in open then 1 else 0
  }

  /** Open, and idle for no longer than the timeout at the reading of the clock made for it. */
  ghost predicate Usable(list: seq<Idle>, open: set<nat>, timeout: Option<nat>, clock: nat -> nat, k: nat)
    requires k < |list|
  {
    list[k].conn.id in open && (timeout.None? || clock(OpenAfter(list, open, k)) - list[k].idleAt <= timeout.value)
  }

  ghost predicate NewestUsable(list: seq<Idle>, open: set<nat>, timeout: Option<nat>, clock: nat -> nat, k: nat) {
    && k < |list| && Usable(list, open, timeout, clock, k)
    && forall j :: k < j < |list| ==> !Usable(list, open, timeout, clock, j)
  }

  ghost predicate NoneUsable(list: seq<Idle>, open: set<nat>, timeout: Option<nat>, clock: nat -> nat) {
    forall j :: 0 <= j < |list| ==> !Usable(list, open, timeout, clock, j)
  }

  /** What is left once the entry at `k` is taken: newer entries are gone, older ones stay, and a
      shareable connection stays as the newest, idle from the reading made after its own. */
  function LeftAfter(list: seq<Idle>, open: set<nat>, clock: nat -> nat, k: nat): seq<Idle>
    requires k < |list|
  {
    list[..k] + if list[k].conn.shareable then [Idle(clock(OpenAfter(list, open, k) + 1), list[k].conn)] else []
  }

  /** `IdlePopper::pop`: the newest connection that is open and not expired, if there is one. */
  method Pop(list: seq<Idle>, open: set<nat>, timeout: Option<nat>, clock: nat -> nat) returns (entry: Option<Idle>, rest: seq<Idle>)
    requires Monotone(clock)
    ensures Popped(entry, rest) == PopLoop(list, open, timeout, clock, 0)
    ensures entry.None? ==> rest == [] && NoneUsable(list, open, timeout, clock)
    ensures entry.Some? ==>
              exists k: nat :: NewestUsable(list, open, timeout, clock, k) && entry.value == list[k] && rest == LeftAfter(list, open, clock, k)
  {
    rest := list;
    var tick := 0;
    while rest != []
      invariant rest == list[..|rest|] && |rest| <= |list|
      invariant PopLoop(rest, open, timeout, clock, tick) == PopLoop(list, open, timeout, clock, 0)
      invariant rest != [] ==> tick == OpenAfter(list, open, |rest| - 1)
      invariant forall j :: |rest| <= j < |list| ==> !Usable(list, open, timeout, clock, j)
      decreases |rest|
    {
      var e := rest[|rest| - 1];
      ghost var k := |rest| - 1;
      assert list[k] == e;
      rest := rest[..|rest| - 1];
      if e.conn.id !in open {
        continue;
      }
      if Expires(timeout, e.idleAt, clock(tick)) {
        tick := tick + 1;
        continue;
      }
      if e.conn.shareable {
        rest := rest + [Idle(clock(tick + 1), e.conn)];
      }
      assert NewestUsable(list, open, timeout, clock, k) && rest == LeftAfter(list, open, clock, k);
      return Some(e), rest;
    }
    return None, [];
  }

  /** `clear_expired` keeps the entries that are open and not expired. */
  predicate Keeps(e: Idle, open: set<nat>, timeout: nat, now: nat) {
    e.conn.id in open && !Expires(Some(timeout), e.idleAt, now)
  }

  function Retain(list: seq<Idle>, open: set<nat>, timeout: nat, now: nat): (r: seq<Idle>)
    ensures |r| <= |list|
    ensures forall x :: x in r <==> x in list && x.conn.id in open && now - x.idleAt <= timeout
  {
    if list == [] then []
    else
      var e, rest := list[|list| - 1], list[..|list| - 1];
      assert list == rest + [e];
      var r := Retain(rest, open, timeout, now);
      if Keeps(e, open, timeout, now) then r + [e] else r
  }

  /** The entries of one list are entries of another, in the same order. */
  ghost predicate InOrder(r: seq<Idle>, list: seq<Idle>) {
    forall i, j :: 0 <= i < j < |r| ==> exists a, b :: 0 <= a < b < |list| && list[a] == r[i] && list[b] == r[j]
  }

  lemma {:induction false} RetainInOrder(list: seq<Idle>, open: set<nat>, timeout: nat, now: nat)
    ensures InOrder(Retain(list, open, timeout, now), list)
    decreases |list|
  {
    if list != [] {
      var last := |list| - 1;
      var r, all := Retain(list[..last], open, timeout, now), Retain(list, open, timeout, now);
      RetainInOrder(list[..last], open, timeout, now);
      forall i, j | 0 <= i < j < |all| ensures exists a, b :: 0 <= a < b < |list| && list[a] == all[i] && list[b] == all[j] {
        if j < |r| {
          var a, b :| 0 <= a < b < |list[..last]| && list[..last][a] == r[i] && list[..last][b] == r[j];
          assert list[a] == all[i] && list[b] == all[j];
        } else {
          assert r[i] in list[..last];
          var a :| 0 <= a < last && list[..last][a] == r[i];
          assert list[a] == all[i] && list[last] == all[j];
        }
      }
    }
  }

  /** A list of idle connections of one host: not empty, not too long, sorted, no connection twice,
      and at most one that can be shared. */
  ghost predicate GoodList(list: seq<Idle>, max: nat, now: nat) {
    0 < |list| <= max && Ordered(list, now)
  }

  ghost predicate Ordered(list: seq<Idle>, now: nat) {
    && Sorted(list)
    && (forall i :: 0 <= i < |list| ==> list[i].idleAt <= now)
    && (forall i, j :: 0 <= i < j < |list| ==> list[i].conn.id != list[j].conn.id)
    && (forall i, j :: 0 <= i < j < |list| ==> !(list[i].conn.shareable && list[j].conn.shareable))
  }

  /** What keeps a list in order when an entry comes to its end. */
  lemma OrderedSnoc(list: seq<Idle>, e: Idle, now: nat, later: nat)
    requires Ordered(list, now) && now <= later && e.idleAt <= later
    requires forall i :: 0 <= i < |list| ==> Precedes(list[i], e)
    ensures Ordered(list + [e], later)
  {
  }

  ghost predicate Precedes(d: Idle, e: Idle) {
    d.idleAt <= e.idleAt && d.conn.id != e.conn.id && !(d.conn.shareable && e.conn.shareable)
  }

  lemma {:induction false} RetainOrdered(list: seq<Idle>, open: set<nat>, timeout: nat, at: nat, now: nat)
    requires Ordered(list, now)
    ensures Ordered(Retain(list, open, timeout, at), now)
    decreases |list|
  {
    if list != [] {
      var e, rest := list[|list| - 1], list[..|list| - 1];
      RetainOrdered(rest, open, timeout, at, now);
      var r := Retain(rest, open, timeout, at);
      forall i | 0 <= i < |r| ensures Precedes(r[i], e) {
        assert r[i] in rest;
        var j :| 0 <= j < |rest| && rest[j] == r[i];
        assert list[j] == r[i];
      }
      OrderedSnoc(r, e, now, now);
    }
  }
}
