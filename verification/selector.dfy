/** The cumulative-weight pick that `choose_packet_type` and `choose_next`
    (app_traffic_gen/src/packet_generator.c) both perform: sum the weights;
    report none when the sum is 0; otherwise reduce the random draw modulo the
    sum and take the first entry whose running sum exceeds it.

    Weights are C `int`s. The sums are `int` additions that wrap on the
    32-bit target, and both the modulo and the comparison convert them to
    `unsigned`, so the model reduces every running sum modulo 2^32. */
module Selector {
  import opened Machine

  /** The exact sum of the first `n` weights. */
  function PrefixSum(ws: seq<I32>, n: nat): int
    requires n <= |ws|
  {
    if n == 0 then 0 else PrefixSum(ws, n - 1) + ws[n - 1]
  }

  /** `cum_weight` after `n` entries, as the unsigned value it is compared as. */
  function Cum(ws: seq<I32>, n: nat): U32
    requires n <= |ws|
  {
    ToU32(PrefixSum(ws, n))
  }

  /** `total_weight`, as the unsigned value the draw is reduced by. */
  function Total(ws: seq<I32>): U32 {
    Cum(ws, |ws|)
  }

  /** The second loop, from entry `i` on: the first entry whose running sum
      exceeds `x`, or none when the list runs out. */
  function FirstExceeding(ws: seq<I32>, x: U32, i: nat): (c: Option<nat>)
    requires i <= |ws|
    ensures c.Some? ==> i <= c.value < |ws| && x < Cum(ws, c.value + 1)
    ensures c.Some? ==> forall n :: i < n <= c.value ==> Cum(ws, n) <= x
    ensures c.None? ==> forall n :: i < n <= |ws| ==> Cum(ws, n) <= x
    decreases |ws| - i
  {
    if i == |ws| then None
    else if x < Cum(ws, i + 1) then Some(i)
    else FirstExceeding(ws, x, i + 1)
  }

  /** The weighted pick with draw `r`: the index of the chosen entry. */
  function Pick(ws: seq<I32>, r: U32): (c: Option<nat>)
    ensures c.None? <==> Total(ws) == 0
    ensures c.Some? ==> c.value < |ws| && ws[c.value] != 0
    ensures c.Some? ==> r % Total(ws) < Cum(ws, c.value + 1)
    ensures c.Some? ==> forall n :: 0 < n <= c.value ==> Cum(ws, n) <= r % Total(ws)
  {
    var total := Total(ws);
    if total == 0 then None
    else
      var c := FirstExceeding(ws, r % total, 0);
      // the last running sum is the total, which exceeds every reduced draw
      assert 0 < |ws| && r % total < Cum(ws, |ws|);
      var i := c.value;
      // entry i raised the running sum past the draw, so its weight is not 0
      assert Cum(ws, i) <= r % total < Cum(ws, i + 1);
      assert PrefixSum(ws, i + 1) == PrefixSum(ws, i) + ws[i];
      c
  }

  /** No weight is negative and the exact total fits in 32 bits: true of
      every list the host validator admits (three weights of at most 100). */
  predicate SmallWeights(ws: seq<I32>) {
    (forall i :: 0 <= i < |ws| ==> ws[i] >= 0) && PrefixSum(ws, |ws|) < TwoTo32
  }

  /** Entry `i` owns the band [PrefixSum(i), PrefixSum(i + 1)) of reduced draws. */
  predicate InBand(ws: seq<I32>, i: nat, x: int)
    requires i < |ws|
  {
    PrefixSum(ws, i) <= x < PrefixSum(ws, i + 1)
  }

  lemma {:induction false} PrefixSumMonotone(ws: seq<I32>, i: nat, j: nat)
    requires i <= j <= |ws|
    requires forall k :: 0 <= k < |ws| ==> ws[k] >= 0
    ensures 0 <= PrefixSum(ws, i) <= PrefixSum(ws, j)
    decreases j
  {
    if j > i {
      PrefixSumMonotone(ws, i, j - 1);
    } else if i > 0 {
      PrefixSumMonotone(ws, 0, i - 1);
    }
  }

  /** With small weights the running sums never wrap, and the pick is the
      entry whose band holds the reduced draw: both directions. */
  lemma PickIsBand(ws: seq<I32>, r: U32, i: nat)
    requires SmallWeights(ws) && i < |ws|
    ensures Total(ws) == PrefixSum(ws, |ws|)
    ensures Pick(ws, r) == Some(i) <==> (Total(ws) > 0 && InBand(ws, i, r % Total(ws)))
  {
    forall n | 0 <= n <= |ws|
      ensures Cum(ws, n) == PrefixSum(ws, n)
    {
      PrefixSumMonotone(ws, n, |ws|);
    }
    var total := Total(ws);
    if total > 0 {
      var x := r % total;
      var c := Pick(ws, r);
      var k := c.value;
      if k > 0 {
        assert Cum(ws, k) <= x;
      }
      assert InBand(ws, k, x);
      if InBand(ws, i, x) && i != k {
        if k < i {
          PrefixSumMonotone(ws, k + 1, i);
        }
      }
    }
  }

  /** How many of the draws 0 .. n - 1 make the pick choose entry `i`. */
  function CountSelecting(ws: seq<I32>, i: nat, n: nat): nat
    requires n <= TwoTo32
  {
    if n == 0 then 0
    else CountSelecting(ws, i, n - 1) + (if Pick(ws, n - 1) == Some(i) then 1 else 0)
  }

  /** How much of the band [a, b) lies below n. */
  function Clip(n: int, a: int, b: int): int {
    if n <= a then 0 else if n >= b then b - a else n - a
  }

  lemma SmallModulus(x: nat, m: nat)
    requires x < m
    ensures x % m == x
  {
  }

  lemma ClipStep(n: int, a: int, b: int)
    requires a <= b
    ensures Clip(n, a, b) == Clip(n - 1, a, b) + (if a <= n - 1 < b then 1 else 0)
  {
  }

  lemma {:induction false} CountSelectingIsClip(ws: seq<I32>, i: nat, n: nat)
    requires SmallWeights(ws) && i < |ws| && n <= Total(ws)
    ensures CountSelecting(ws, i, n) == Clip(n, PrefixSum(ws, i), PrefixSum(ws, i + 1))
    decreases n
  {
    if n > 0 {
      var a, b := PrefixSum(ws, i), PrefixSum(ws, i + 1);
      CountSelectingIsClip(ws, i, n - 1);
      PickIsBand(ws, n - 1, i);
      PrefixSumMonotone(ws, i, i + 1);
      var hit := Pick(ws, n - 1) == Some(i);
      SmallModulus(n - 1, Total(ws));
      assert hit <==> a <= n - 1 < b;
      ClipStep(n, a, b);
    } else {
      PrefixSumMonotone(ws, i, i + 1);
    }
  }

  /** The deductive content of "chosen with probability proportional to its
      weight": of the `Total` distinct reduced draws 0 .. Total - 1, exactly
      `ws[i]` choose entry `i`. */
  lemma PickCountsMatchWeights(ws: seq<I32>, i: nat)
    requires SmallWeights(ws) && i < |ws|
    ensures CountSelecting(ws, i, Total(ws)) == ws[i]
  {
    PickIsBand(ws, 0, i);
    CountSelectingIsClip(ws, i, Total(ws));
    PrefixSumMonotone(ws, i, i + 1);
    PrefixSumMonotone(ws, i + 1, |ws|);
  }
}
