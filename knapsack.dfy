/**
  Shared vocabulary of the 0/1 knapsack problem: configuration vectors,
  their price and weight, and an independent recursive definition of the
  optimal price that every solver is measured against.
 */
module Knapsack {

  /** One cell of a configuration vector: 0 = thing left out, 1 = thing in the knapsack. */
  type Bit = x: int | 0 <= x <= 1

  /** Sum of `c[i] * v[i]` over the indices of `c` (the price or weight of a configuration prefix). */
  function Dot(c: seq<Bit>, v: seq<nat>): int
    requires |c| <= |v|
  {
    if |c| == 0 then 0
    else if c[|c| - 1] == 1 then Dot(c[..|c| - 1], v) + v[|c| - 1]
    else Dot(c[..|c| - 1], v)
  }

  /** Sum of all `v[i]` with `from <= i`. */
  function SumFrom(v: seq<nat>, from: nat): nat
    requires from <= |v|
    decreases |v| - from
  {
    if from == |v| then 0 else v[from] + SumFrom(v, from + 1)
  }

  /** Sum of all values. */
  function Sum(v: seq<nat>): nat
  {
    SumFrom(v, 0)
  }

  /** `k` zero cells. */
  function Zeros(k: nat): (z: seq<Bit>)
    ensures |z| == k && forall i :: 0 <= i < k ==> z[i] == 0
  {
    seq(k, _ => 0)
  }

  /** A configuration over all things fits into the knapsack. */
  predicate Feasible(c: seq<Bit>, weights: seq<nat>, capacity: nat)
  {
    |c| == |weights| && Dot(c, weights) <= capacity
  }

  /**
    The best price reachable with the first `i` things and the given
    capacity: the textbook recurrence, independent of every solver.
   */
  function OptPrice(prices: seq<nat>, weights: seq<nat>, i: nat, capacity: nat): nat
    requires i <= |prices| && i <= |weights|
  {
    if i == 0 then 0
    else
      var skip := OptPrice(prices, weights, i - 1, capacity);
      if weights[i - 1] <= capacity then
        var take := OptPrice(prices, weights, i - 1, capacity - weights[i - 1]) + prices[i - 1];
        if take > skip then take else skip
      else skip
  }

  /** The configuration of the first `i` things that realizes `OptPrice`. */
  function OptConfig(prices: seq<nat>, weights: seq<nat>, i: nat, capacity: nat): (c: seq<Bit>)
    requires i <= |prices| && i <= |weights|
    ensures |c| == i
  {
    if i == 0 then []
    else
      var skip := OptPrice(prices, weights, i - 1, capacity);
      if weights[i - 1] <= capacity
         && OptPrice(prices, weights, i - 1, capacity - weights[i - 1]) + prices[i - 1] > skip
      then OptConfig(prices, weights, i - 1, capacity - weights[i - 1]) + [1]
      else OptConfig(prices, weights, i - 1, capacity) + [0]
  }

  // ---------------------------------------------------------------- Dot facts

  lemma {:induction false} DotNonNegative(c: seq<Bit>, v: seq<nat>)
    requires |c| <= |v|
    ensures Dot(c, v) >= 0
  {
    if |c| > 0 { DotNonNegative(c[..|c| - 1], v); }
  }

  /** A configuration with one more cell adds that cell's contribution. */
  lemma DotSnoc(c: seq<Bit>, b: Bit, v: seq<nat>)
    requires |c| < |v|
    ensures Dot(c + [b], v) == Dot(c, v) + (if b == 1 then v[|c|] else 0)
  {
    assert (c + [b])[..|c|] == c;
  }

  /** Dot only looks at the first |c| values. */
  lemma {:induction false} DotTakeValues(c: seq<Bit>, v: seq<nat>, k: nat)
    requires |c| <= k <= |v|
    ensures Dot(c, v[..k]) == Dot(c, v)
  {
    if |c| > 0 { DotTakeValues(c[..|c| - 1], v, k); }
  }

  /** The price/weight of a prefix never exceeds that of the whole configuration. */
  lemma {:induction false} DotPrefixLe(c: seq<Bit>, v: seq<nat>, k: nat)
    requires k <= |c| <= |v|
    ensures Dot(c[..k], v) <= Dot(c, v)
  {
    if k < |c| {
      var c' := c[..|c| - 1];
      assert c'[..k] == c[..k];
      DotPrefixLe(c', v, k);
    } else {
      assert c[..k] == c;
    }
  }

  /** The cells after position k contribute at most the sum of the values after k. */
  lemma {:induction false} DotSuffixBound(c: seq<Bit>, v: seq<nat>, k: nat)
    requires k <= |c| == |v|
    ensures Dot(c, v) <= Dot(c[..k], v) + SumFrom(v, k)
  {
    DotSuffixBoundAux(c, v, k, |c|);
    assert c[..|c|] == c;
  }

  lemma {:induction false} DotSuffixBoundAux(c: seq<Bit>, v: seq<nat>, k: nat, j: nat)
    requires k <= j <= |c| == |v|
    ensures Dot(c[..j], v) + SumFrom(v, j) <= Dot(c[..k], v) + SumFrom(v, k)
    decreases j - k
  {
    if j > k {
      var c' := c[..j - 1];
      assert c[..j][..j - 1] == c';
      assert Dot(c[..j], v) == Dot(c', v) + c[j - 1] * v[j - 1];
      DotSuffixBoundAux(c, v, k, j - 1);
    }
  }

  /** Setting one zero cell to one adds exactly that thing's value. */
  lemma {:induction false} DotSetOne(c: seq<Bit>, v: seq<nat>, i: nat)
    requires i < |c| <= |v| && c[i] == 0
    ensures Dot(c[i := 1], v) == Dot(c, v) + v[i]
  {
    var last := |c| - 1;
    if i < last {
      assert c[i := 1][..last] == c[..last][i := 1];
      DotSetOne(c[..last], v, i);
    } else {
      assert c[i := 1][..last] == c[..last];
    }
  }

  /** Padding a configuration with zero cells changes neither its price nor its weight. */
  lemma {:induction false} DotZerosTail(c: seq<Bit>, k: nat, v: seq<nat>)
    requires |c| + k <= |v|
    ensures Dot(c + Zeros(k), v) == Dot(c, v)
  {
    if k > 0 {
      assert (c + Zeros(k))[..|c| + k - 1] == c + Zeros(k - 1);
      DotZerosTail(c, k - 1, v);
    } else {
      assert c + Zeros(0) == c;
    }
  }

  /** The price of any configuration is at most the sum of all prices. */
  lemma DotLeSum(c: seq<Bit>, v: seq<nat>)
    requires |c| == |v|
    ensures Dot(c, v) <= Sum(v)
  {
    DotSuffixBound(c, v, 0);
  }

  // ------------------------------------------------------------ optimality

  /** No feasible configuration of the first `|c|` things beats `OptPrice`. */
  lemma {:induction false} OptPriceIsUpperBound(prices: seq<nat>, weights: seq<nat>, c: seq<Bit>, capacity: nat)
    requires |c| <= |prices| && |c| <= |weights|
    requires Dot(c, weights) <= capacity
    ensures Dot(c, prices) <= OptPrice(prices, weights, |c|, capacity)
  {
    if |c| > 0 {
      var i := |c| - 1;
      var c' := c[..i];
      DotNonNegative(c', weights);
      if c[i] == 0 {
        OptPriceIsUpperBound(prices, weights, c', capacity);
      } else {
        OptPriceIsUpperBound(prices, weights, c', capacity - weights[i]);
      }
    }
  }

  /** `OptConfig` fits and reaches `OptPrice`. */
  lemma OptConfigIsOptimal(prices: seq<nat>, weights: seq<nat>, i: nat, capacity: nat)
    requires i <= |prices| && i <= |weights|
    ensures Dot(OptConfig(prices, weights, i, capacity), weights) <= capacity
    ensures Dot(OptConfig(prices, weights, i, capacity), prices) == OptPrice(prices, weights, i, capacity)
  {
    OptConfigFits(prices, weights, i, capacity);
    OptConfigPrice(prices, weights, i, capacity);
  }

  lemma {:induction false} OptConfigFits(prices: seq<nat>, weights: seq<nat>, i: nat, capacity: nat)
    requires i <= |prices| && i <= |weights|
    ensures Dot(OptConfig(prices, weights, i, capacity), weights) <= capacity
  {
    if i > 0 {
      var b, cap := OptStep(prices, weights, i, capacity);
      var c := OptConfig(prices, weights, i - 1, cap);
      OptConfigFits(prices, weights, i - 1, cap);
      assert b == 1 ==> cap + weights[|c|] == capacity;
      SnocFits(c, b, weights, cap, capacity);
    }
  }

  lemma {:induction false} OptConfigPrice(prices: seq<nat>, weights: seq<nat>, i: nat, capacity: nat)
    requires i <= |prices| && i <= |weights|
    ensures Dot(OptConfig(prices, weights, i, capacity), prices) == OptPrice(prices, weights, i, capacity)
  {
    if i > 0 {
      var b, cap := OptStep(prices, weights, i, capacity);
      OptConfigPrice(prices, weights, i - 1, cap);
      SnocPrice(OptConfig(prices, weights, i - 1, cap), b, prices, OptPrice(prices, weights, i - 1, cap));
    }
  }

  lemma SnocFits(c: seq<Bit>, b: Bit, weights: seq<nat>, cap: nat, capacity: nat)
    requires |c| < |weights| && Dot(c, weights) <= cap
    requires if b == 1 then cap + weights[|c|] == capacity else cap == capacity
    ensures Dot(c + [b], weights) <= capacity
  {
    DotSnoc(c, b, weights);
  }

  lemma SnocPrice(c: seq<Bit>, b: Bit, prices: seq<nat>, p: int)
    requires |c| < |prices| && Dot(c, prices) == p
    ensures Dot(c + [b], prices) == if b == 1 then p + prices[|c|] else p
  {
    DotSnoc(c, b, prices);
  }

  /** One step of the recurrence: whether thing `i - 1` is taken, and the capacity left for the others. */
  lemma OptStep(prices: seq<nat>, weights: seq<nat>, i: nat, capacity: nat) returns (b: Bit, cap: nat)
    requires 0 < i <= |prices| && i <= |weights|
    ensures OptConfig(prices, weights, i, capacity) == OptConfig(prices, weights, i - 1, cap) + [b]
    ensures b == 1 ==> (cap + weights[i - 1] == capacity
                        && OptPrice(prices, weights, i, capacity) == OptPrice(prices, weights, i - 1, cap) + prices[i - 1])
    ensures b == 0 ==> cap == capacity && OptPrice(prices, weights, i, capacity) == OptPrice(prices, weights, i - 1, cap)
  {
    if weights[i - 1] <= capacity
       && OptPrice(prices, weights, i - 1, capacity - weights[i - 1]) + prices[i - 1]
          > OptPrice(prices, weights, i - 1, capacity)
    {
      b, cap := 1, capacity - weights[i - 1];
    } else {
      b, cap := 0, capacity;
    }
  }

  /**
    A feasible configuration of all things whose price is at least that of
    every feasible configuration has exactly the optimal price.
   */
  lemma OptimalByDominance(prices: seq<nat>, weights: seq<nat>, capacity: nat, c: seq<Bit>)
    requires |prices| == |weights| == |c|
    requires Feasible(c, weights, capacity)
    requires forall x: seq<Bit> :: Feasible(x, weights, capacity) ==> Dot(x, prices) <= Dot(c, prices)
    ensures Dot(c, prices) == OptPrice(prices, weights, |c|, capacity)
  {
    OptPriceIsUpperBound(prices, weights, c, capacity);
    var o := OptConfig(prices, weights, |c|, capacity);
    OptConfigIsOptimal(prices, weights, |c|, capacity);
    assert Feasible(o, weights, capacity);
  }

  // ------------------------------------------------------------ arithmetic

  lemma MulMonotone(x: int, y: int, k: nat)
    requires x >= y
    ensures x * k >= y * k
  {
  }

  lemma CancelPositive(x: int, y: int, k: nat)
    requires k > 0 && x * k >= y * k
    ensures x >= y
  {
    if x < y {
      MulMonotone(y, x + 1, k);
    }
  }

  /** Integer division is determined by quotient and remainder. */
  lemma DivUnique(x: int, y: int, q: int, r: int)
    requires y > 0 && 0 <= r < y && x == q * y + r
    ensures x / y == q && x % y == r
  {
    var d := x / y;
    assert (q - d) * y == x % y - r;
    if q > d {
      MulMonotone(q - d, 1, y);
    } else if q < d {
      MulMonotone(d - q, 1, y);
    }
  }
}
