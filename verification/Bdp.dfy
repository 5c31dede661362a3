/** The window estimator of an HTTP/2 connection (src/proto/h2/ping.rs). How the measured bandwidth
    compares with the largest one seen is left open: it is any boolean. */
module BdpEstimate {
  import opened Bytes

  /** `SPEC_WINDOW_SIZE`: where an adaptive window starts. */
  const INITIAL := 65535
  const LIMIT := 1024 * 1024 * 16
  const MILLI := 1_000_000
  const SECOND := 1_000_000_000

  /** Windows that follow one another: larger each time, by a third at least up to a rounding error,
      and none after the limit. */
  ghost predicate Growing(sizes: seq<nat>) {
    && sizes != [] && sizes[0] == INITIAL
    && (forall i :: 0 <= i < |sizes| ==> sizes[i] <= LIMIT)
    && (forall i :: 0 <= i < |sizes| - 1 ==> Grows(sizes[i], sizes[i + 1]))
  }

  ghost predicate Grows(x: nat, y: nat) {
    x < LIMIT && x < y && (y == LIMIT || 3 * (y - 4) >= 4 * (x - 4))
  }

  /** The least the window can be after each update, while the limit is not reached. */
  const LADDER: seq<nat> := [65535, 87379, 116504, 155338, 207116, 276154, 368204, 490938, 654583, 872776,
                             1163700, 1551599, 2068798, 2758396, 3677860, 4903812, 6538415, 8717886, 11623847, 15498462, 20664615]

  lemma LadderStep(k: nat, x: nat, y: nat)
    requires k < 20 && x >= LADDER[k] && 3 * (y - 4) >= 4 * (x - 4)
    ensures y >= LADDER[k + 1]
  {
  }

  lemma {:induction false} AtLeast(sizes: seq<nat>, k: nat)
    requires Growing(sizes) && k < |sizes| && k <= 20
    ensures sizes[k] == LIMIT || sizes[k] >= LADDER[k]
  {
    if k > 0 {
      AtLeast(sizes, k - 1);
      assert Grows(sizes[k - 1], sizes[k - 1 + 1]);
      if sizes[k] != LIMIT {
        LadderStep(k - 1, sizes[k - 1], sizes[k]);
      }
    }
  }

  /** Whatever is measured, the window is updated twenty times at most. */
  lemma FewUpdates(sizes: seq<nat>)
    requires Growing(sizes)
    ensures |sizes| <= 1 + 20
  {
    if |sizes| > 21 {
      assert Grows(sizes[20], sizes[20 + 1]);
      AtLeast(sizes, 20);
    }
  }

  class Bdp {
    var bdp: nat
    /** In nanoseconds. */
    var pingDelay: nat
    var stableCount: nat
    /** Every window there has been. */
    ghost var sizes: seq<nat>

    ghost predicate Valid()
      reads this
    {
      && Growing(sizes) && sizes[|sizes| - 1] == bdp
      && pingDelay < 40 * SECOND && stableCount < 2
    }

    constructor ()
      ensures Valid() && sizes == [INITIAL] && bdp == 65535 && pingDelay == 100_000_000 && stableCount == 0
    {
      bdp, pingDelay, stableCount, sizes := INITIAL, 100 * MILLI, 0, [INITIAL];
    }

    /** A sample of `bytes` in one round trip. It counts when the bandwidth is not below the best one
        and the sample fills two thirds of the window; the window is then twice the sample. */
    method Calculate(bytes: nat, slower: bool) returns (r: Option<nat>)
      requires Valid() && bytes < 0x8000_0000_0000_0000
      modifies this
      ensures Valid()
      ensures r.Some? <==> old(bdp) != 16_777_216 && !slower && 3 * bytes + 2 >= 2 * old(bdp)
      ensures r.Some? ==> r.value == bdp && sizes == old(sizes) + [bdp] && pingDelay == old(pingDelay) / 2
                          && bdp == (if 2 * bytes < 16_777_216 then 2 * bytes else 16_777_216)
                          && stableCount == 0
      ensures r.None? ==>
                && bdp == old(bdp) && sizes == old(sizes)
                && pingDelay == (if old(pingDelay) < 10 * SECOND && old(stableCount) == 1 then 4 * old(pingDelay) else old(pingDelay))
                && stableCount == (if old(pingDelay) < 10 * SECOND then 1 - old(stableCount) else old(stableCount))
    {
      if bdp == LIMIT {
        StabilizeDelay();
        return None;
      }
      if slower {
        StabilizeDelay();
        return None;
      }
      if bytes >= bdp * 2 / 3 {
        assert bdp == sizes[|sizes| - 1];
        StillLarge(sizes, |sizes| - 1);
        bdp := if bytes * 2 < LIMIT then bytes * 2 else LIMIT;
        sizes := sizes + [bdp];
        stableCount := 0;
        pingDelay := pingDelay / 2;
        return Some(bdp);
      }
      StabilizeDelay();
      return None;
    }

    /** Two samples in a row without an increase make the next ping wait four times longer, up to a point. */
    method StabilizeDelay()
      requires Valid()
      modifies `pingDelay, `stableCount
      ensures Valid()
      ensures pingDelay == if old(pingDelay) < 10 * SECOND && old(stableCount) == 1 then 4 * old(pingDelay) else old(pingDelay)
      ensures stableCount == if old(pingDelay) < 10 * SECOND then 1 - old(stableCount) else old(stableCount)
    {
      if pingDelay < 10 * SECOND {
        stableCount := stableCount + 1;
        if stableCount >= 2 {
          pingDelay := pingDelay * 4;
          stableCount := 0;
        }
      }
    }
  }

  lemma {:induction false} StillLarge(sizes: seq<nat>, k: nat)
    requires Growing(sizes) && k < |sizes|
    ensures sizes[k] >= INITIAL
  {
    if k > 0 {
      StillLarge(sizes, k - 1);
      assert Grows(sizes[k - 1], sizes[k - 1 + 1]);
    }
  }

  /** Any samples at all. */
  method Run(samples: seq<nat>) returns (updates: seq<nat>, delay: nat)
    requires forall i :: 0 <= i < |samples| ==> samples[i] < 0x8000_0000_0000_0000
    ensures |updates| <= 20 && Growing([INITIAL] + updates) && delay < 40 * SECOND
  {
    var b := new Bdp();
    updates := [];
    assert [INITIAL] + updates == [INITIAL];
    for i := 0 to |samples|
      invariant fresh(b) && b.Valid() && b.sizes == [INITIAL] + updates
    {
      var slower: bool := *;
      var u := b.Calculate(samples[i], slower);
      if u.Some? {
        assert [INITIAL] + (updates + [u.value]) == [INITIAL] + updates + [u.value];
        updates := updates + [u.value];
      }
    }
    FewUpdates(b.sizes);
    delay := b.pingDelay;
  }
}
