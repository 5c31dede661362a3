/** How much to read at a time (src/proto/h1/io.rs): an adaptive size, doubled when it is filled and
    halved when it twice is not needed. */
module ReadStrategy {
  import opened Bytes

  const INIT_BUFFER_SIZE := 8192

  // ----- powers of two in 64 bits -----

  function Pow2(k: nat): (r: nat)
    ensures r >= 1
  {
    if k == 0 then 1 else 2 * Pow2(k - 1)
  }

  ghost predicate IsPow2(n: nat) {
    exists k: nat :: n == Pow2(k)
  }

  function BitLength(n: nat): (r: nat)
    ensures r > 0 ==> Pow2(r - 1) <= n
    ensures n < Pow2(r)
    ensures r == 0 <==> n == 0
  {
    if n == 0 then 0 else 1 + BitLength(n / 2)
  }

  function LeadingZeros(n: nat): nat
    requires n < U64
  {
    Sizes();
    BitLengthAtMost(n, 64);
    64 - BitLength(n)
  }

  lemma {:induction false} Pow2Monotone(j: nat, k: nat)
    requires j <= k
    ensures Pow2(j) <= Pow2(k)
  {
    if j < k {
      Pow2Monotone(j, k - 1);
    }
  }

  lemma {:induction false} BitLengthAtMost(n: nat, k: nat)
    requires n < Pow2(k)
    ensures BitLength(n) <= k
  {
    if n > 0 {
      BitLengthAtMost(n / 2, k - 1);
    }
  }

  lemma {:induction false} Pow2Add(j: nat, k: nat)
    ensures Pow2(j + k) == Pow2(j) * Pow2(k)
  {
    if j > 0 {
      Pow2Add(j - 1, k);
      assert 2 * (Pow2(j - 1) * Pow2(k)) == (2 * Pow2(j - 1)) * Pow2(k);
    }
  }

  lemma Sizes()
    ensures Pow2(13) == INIT_BUFFER_SIZE && Pow2(64) == U64
  {
    assert Pow2(8) == 256;
    Pow2Add(8, 5);
    Squared(8, 0x100);
    Squared(16, 0x1_0000);
    Squared(32, 0x1_0000_0000);
  }

  lemma Squared(k: nat, n: nat)
    requires Pow2(k) == n
    ensures Pow2(k + k) == n * n
  {
    Pow2Add(k, k);
  }

  /** `>>`. */
  function ShiftRight(x: nat, k: nat): nat {
    if k == 0 then x else ShiftRight(x / 2, k - 1)
  }

  lemma {:induction false} ShiftOnes(j: nat, k: nat)
    requires k <= j
    ensures ShiftRight(Pow2(j) - 1, k) == Pow2(j - k) - 1
  {
    if k > 0 {
      assert (Pow2(j) - 1) / 2 == Pow2(j - 1) - 1;
      ShiftOnes(j - 1, k - 1);
    }
  }

  /** `prev_power_of_two`: half of the largest power of two that is not above `n`. */
  function PrevPowerOfTwo(n: nat): (r: nat)
    requires 4 <= n < U64
    ensures IsPow2(r) && 2 * r <= n < 4 * r
  {
    PrevIsPow2(n);
    ShiftRight(U64 - 1, LeadingZeros(n) + 2) + 1
  }

  lemma PrevIsPow2(n: nat)
    requires 4 <= n < U64
    ensures var k := BitLength(n) - 2;
            k >= 0 && ShiftRight(U64 - 1, LeadingZeros(n) + 2) + 1 == Pow2(k) && 2 * Pow2(k) <= n < 4 * Pow2(k)
  {
    Sizes();
    BitLengthAtMost(n, 64);
    if BitLength(n) < 3 {
      Pow2Monotone(BitLength(n), 2);
    }
    ShiftOnes(64, LeadingZeros(n) + 2);
  }

  // ----- what the sizes promise -----

  /** A read that would have fit into half the size in use, rounded down. */
  predicate Small(read: nat, size: nat)
    requires 4 <= size < U64
  {
    read < PrevPowerOfTwo(size)
  }

  /** The size below, but not less than the one at the start. */
  function Half(size: nat): nat
    requires 4 <= size < U64
  {
    if PrevPowerOfTwo(size) < INIT_BUFFER_SIZE then INIT_BUFFER_SIZE else PrevPowerOfTwo(size)
  }

  ghost predicate GoodSize(size: nat, max: nat) {
    INIT_BUFFER_SIZE <= size <= max && (size == max || IsPow2(size))
  }

  /** A size follows another in these ways only; to shrink takes two small reads in a row at the same
      size. */
  ghost predicate Follows(sizes: seq<nat>, got: seq<nat>, i: nat, max: nat)
    requires |sizes| == |got| + 1 && i < |got| && max < U64
    requires GoodSize(sizes[i], max)
  {
    var size, next := sizes[i], sizes[i + 1];
    && (got[i] >= size ==> next == Double(size, max))
    && (next > size ==> got[i] >= size)
    && (next < size ==>
          && i > 0 && sizes[i - 1] == size && Small(got[i - 1], size) && Small(got[i], size)
          && next == Half(size))
  }

  ghost predicate Adapts(sizes: seq<nat>, got: seq<nat>, max: nat) {
    && |sizes| == |got| + 1 && sizes[0] == INIT_BUFFER_SIZE && max < U64
    && (forall j :: 0 <= j < |sizes| ==> GoodSize(sizes[j], max))
    && (forall i :: 0 <= i < |got| ==> Follows(sizes, got, i, max))
  }

  /** The adaptive strategy. */
  class Adaptive {
    var decreaseNow: bool
    var next: nat
    const max: nat
    ghost var sizes: seq<nat>
    ghost var seen: seq<nat>

    ghost predicate Valid()
      reads this
    {
      && Adapts(sizes, seen, max) && sizes[|sizes| - 1] == next
      && (decreaseNow ==> |seen| > 0 && sizes[|seen| - 1] == next && Small(seen[|seen| - 1], next))
    }

    /** `with_max`; the setter asserts the bound. */
    constructor (max: nat)
      requires INIT_BUFFER_SIZE <= max < U64
      ensures Valid() && this.max == max && sizes == [INIT_BUFFER_SIZE] && seen == []
    {
      Sizes();
      this.max := max;
      decreaseNow, next, sizes, seen := false, INIT_BUFFER_SIZE, [INIT_BUFFER_SIZE], [];
    }

    /** `record`. */
    method Record(bytesRead: nat)
      requires Valid()
      modifies this
      ensures Valid() && seen == old(seen) + [bytesRead] && sizes == old(sizes) + [next]
      ensures decreaseNow <==> bytesRead < old(next) && Small(bytesRead, old(next)) && !old(decreaseNow)
      ensures old(decreaseNow) && Small(bytesRead, old(next)) && old(next) > INIT_BUFFER_SIZE ==> next < old(next)
    {
      assert GoodSize(next, max);
      if bytesRead >= next {
        Grown(sizes, seen, max, bytesRead);
        var doubled := if 2 * next < U64 then 2 * next else U64 - 1;
        next := if doubled < max then doubled else max;
        decreaseNow := false;
      } else {
        var decrTo := PrevPowerOfTwo(next);
        if bytesRead < decrTo {
          if decreaseNow {
            Shrunk(sizes, seen, max, bytesRead);
            next := if decrTo < INIT_BUFFER_SIZE then INIT_BUFFER_SIZE else decrTo;
            decreaseNow := false;
          } else {
            Kept(sizes, seen, max, bytesRead);
            decreaseNow := true;
          }
        } else {
          Kept(sizes, seen, max, bytesRead);
          decreaseNow := false;
        }
      }
      sizes, seen := sizes + [next], seen + [bytesRead];
    }
  }

  function Double(size: nat, max: nat): nat {
    if 2 * size < max then 2 * size else max
  }

  lemma Grown(sizes: seq<nat>, got: seq<nat>, max: nat, read: nat)
    requires Adapts(sizes, got, max) && read >= sizes[|sizes| - 1]
    ensures Adapts(sizes + [Double(sizes[|sizes| - 1], max)], got + [read], max)
  {
    var size := sizes[|sizes| - 1];
    assert GoodSize(size, max);
    if size != max {
      var k: nat :| size == Pow2(k);
      assert 2 * size == Pow2(k + 1);
    }
    Extend(sizes, got, max, Double(size, max), read);
  }

  lemma Shrunk(sizes: seq<nat>, got: seq<nat>, max: nat, read: nat)
    requires Adapts(sizes, got, max) && 0 < |got|
    requires var size := sizes[|sizes| - 1];
             INIT_BUFFER_SIZE <= size < U64 && sizes[|got| - 1] == size && Small(got[|got| - 1], size) && Small(read, size)
    ensures Adapts(sizes + [Half(sizes[|sizes| - 1])], got + [read], max)
  {
    Sizes();
    Extend(sizes, got, max, Half(sizes[|sizes| - 1]), read);
  }

  lemma Kept(sizes: seq<nat>, got: seq<nat>, max: nat, read: nat)
    requires Adapts(sizes, got, max) && read < sizes[|sizes| - 1]
    ensures Adapts(sizes + [sizes[|sizes| - 1]], got + [read], max)
  {
    Extend(sizes, got, max, sizes[|sizes| - 1], read);
  }

  lemma Extend(sizes: seq<nat>, got: seq<nat>, max: nat, next: nat, read: nat)
    requires Adapts(sizes, got, max) && GoodSize(next, max)
    requires Follows(sizes + [next], got + [read], |got|, max)
    ensures Adapts(sizes + [next], got + [read], max)
  {
    var s, r := sizes + [next], got + [read];
    forall i | 0 <= i < |r| ensures Follows(s, r, i, max) {
      if i < |got| {
        assert Follows(sizes, got, i, max);
      }
    }
  }

  /** Any sequence of reads. */
  method Run(max: nat, got: seq<nat>) returns (sizes: seq<nat>)
    requires INIT_BUFFER_SIZE <= max < U64
    ensures Adapts(sizes, got, max)
  {
    var strategy := new Adaptive(max);
    sizes := [strategy.next];
    for i := 0 to |got|
      invariant fresh(strategy) && strategy.Valid() && strategy.max == max
      invariant strategy.sizes == sizes && strategy.seen == got[..i]
    {
      strategy.Record(got[i]);
      sizes := sizes + [strategy.next];
      assert got[..i + 1] == got[..i] + [got[i]];
    }
    assert got[..|got|] == got;
  }
}
