/**
  dynamic_programming.rb: exact solver by decomposition by price. Cell
  (i, c) of an (n+1) x (P+1) table holds the least weight of a subset of
  the first i things whose price is exactly c, or a sentinel (total weight
  + 1) when there is none; the best price is the largest c whose cell in
  the last row fits, and the configuration is read back from the table.
 */
module DynamicProgrammingSolver {
  import opened Knapsack
  import opened Instances

  /** The table recurrence; negative prices read as the sentinel `inf`. */
  function MinWeight(prices: seq<nat>, weights: seq<nat>, inf: nat, i: nat, c: int): nat
    requires i <= |prices| == |weights|
  {
    if c < 0 then inf
    else if i == 0 then (if c == 0 then 0 else inf)
    else
      var skip := MinWeight(prices, weights, inf, i - 1, c);
      var take := MinWeight(prices, weights, inf, i - 1, c - prices[i - 1]) + weights[i - 1];
      if skip <= take then skip else take
  }

  /** The sentinel: one more than the weight of all things together. */
  function Infinity(weights: seq<nat>): nat
  {
    Sum(weights) + 1
  }

  /** Cells never exceed the sentinel. */
  lemma {:induction false} MinWeightAtMostInf(prices: seq<nat>, weights: seq<nat>, inf: nat, i: nat, c: int)
    requires i <= |prices| == |weights|
    ensures MinWeight(prices, weights, inf, i, c) <= inf
  {
    if c >= 0 && i > 0 {
      MinWeightAtMostInf(prices, weights, inf, i - 1, c);
    }
  }

  /** Column 0 is always 0: the empty subset has price 0. */
  lemma {:induction false} MinWeightColumnZero(prices: seq<nat>, weights: seq<nat>, inf: nat, i: nat)
    requires i <= |prices| == |weights|
    ensures MinWeight(prices, weights, inf, i, 0) == 0
  {
    if i > 0 {
      MinWeightColumnZero(prices, weights, inf, i - 1);
    }
  }

  /** No subset of the first |x| things with price c weighs less than cell (|x|, c). */
  lemma {:induction false} MinWeightIsLowerBound(prices: seq<nat>, weights: seq<nat>, inf: nat, x: seq<Bit>)
    requires |x| <= |prices| == |weights|
    ensures MinWeight(prices, weights, inf, |x|, Dot(x, prices)) <= Dot(x, weights)
  {
    if |x| > 0 {
      var i := |x| - 1;
      var x' := x[..i];
      DotNonNegative(x', prices);
      MinWeightIsLowerBound(prices, weights, inf, x');
    }
  }

  /**
    `configuration_vector` as a function: walking back from cell (i, c),
    thing i-1 is left out when the cell equals the one above it, and taken
    otherwise.
   */
  function Reconstruct(prices: seq<nat>, weights: seq<nat>, inf: nat, i: nat, c: nat): (x: seq<Bit>)
    requires i <= |prices| == |weights|
    requires MinWeight(prices, weights, inf, i, c) < inf
    ensures |x| == i
  {
    if i == 0 then []
    else if MinWeight(prices, weights, inf, i, c) == MinWeight(prices, weights, inf, i - 1, c) then
      Reconstruct(prices, weights, inf, i - 1, c) + [0]
    else
      assert MinWeight(prices, weights, inf, i - 1, c - prices[i - 1]) == inf || c >= prices[i - 1];
      Reconstruct(prices, weights, inf, i - 1, c - prices[i - 1]) + [1]
  }

  /** The walk back from a reachable cell (i, c) yields a subset of price c and weight exactly the cell. */
  lemma {:induction false} ReconstructSound(prices: seq<nat>, weights: seq<nat>, inf: nat, i: nat, c: nat)
    requires i <= |prices| == |weights|
    requires MinWeight(prices, weights, inf, i, c) < inf
    ensures Dot(Reconstruct(prices, weights, inf, i, c), prices) == c
    ensures Dot(Reconstruct(prices, weights, inf, i, c), weights) == MinWeight(prices, weights, inf, i, c)
  {
    if i > 0 {
      var b, c' := WalkBackStep(prices, weights, inf, i, c);
      var x' := Reconstruct(prices, weights, inf, i - 1, c');
      ReconstructSound(prices, weights, inf, i - 1, c');
      DotSnoc(x', b, prices);
      DotSnoc(x', b, weights);
    }
  }

  /** One step back from a reachable cell (i, c): the bit chosen for thing i-1 and the reachable cell above. */
  lemma WalkBackStep(prices: seq<nat>, weights: seq<nat>, inf: nat, i: nat, c: nat) returns (b: Bit, c': nat)
    requires 0 < i <= |prices| == |weights|
    requires MinWeight(prices, weights, inf, i, c) < inf
    ensures MinWeight(prices, weights, inf, i - 1, c') < inf
    ensures Reconstruct(prices, weights, inf, i, c) == Reconstruct(prices, weights, inf, i - 1, c') + [b]
    ensures c == c' + (if b == 1 then prices[i - 1] else 0)
    ensures MinWeight(prices, weights, inf, i, c)
              == MinWeight(prices, weights, inf, i - 1, c') + (if b == 1 then weights[i - 1] else 0)
  {
    if MinWeight(prices, weights, inf, i, c) == MinWeight(prices, weights, inf, i - 1, c) {
      b, c' := 0, c;
    } else {
      assert MinWeight(prices, weights, inf, i - 1, c - prices[i - 1]) == inf || c >= prices[i - 1];
      b, c' := 1, c - prices[i - 1];
    }
  }

  /** One step of the walk back, on the sequences involved. */
  lemma ConcatStep(target: seq<Bit>, walked: seq<Bit>, head: seq<Bit>, b: Bit, tail: seq<Bit>)
    requires target == walked + tail && walked == head + [b]
    ensures target == head + ([b] + tail)
  {
  }

  lemma DotOnesAux(v: seq<nat>, k: nat)
    requires k <= |v|
    ensures Dot(seq(k, _ => 1), v) + SumFrom(v, k) == Sum(v)
  {
    if k > 0 {
      assert seq(k, _ => 1)[..k - 1] == seq(k - 1, _ => 1);
      DotOnesAux(v, k - 1);
    }
  }

  /** Taking every thing prices and weighs everything. */
  lemma DotOnes(v: seq<nat>)
    ensures Dot(seq(|v|, _ => 1), v) == Sum(v)
  {
    DotOnesAux(v, |v|);
  }

  /**
    The largest price whose last-row cell fits is the optimum, and the
    walk back from it gives a configuration that fits and has that price.
    This holds also when the capacity reaches the sentinel, because the
    total price is then reachable.
   */
  lemma DpBestIsOptimal(prices: seq<nat>, weights: seq<nat>, capacity: nat, best: nat)
    requires |prices| == |weights|
    requires best <= Sum(prices)
    requires MinWeight(prices, weights, Infinity(weights), |prices|, best) <= capacity
    requires forall c :: best < c <= Sum(prices) ==> MinWeight(prices, weights, Infinity(weights), |prices|, c) > capacity
    ensures MinWeight(prices, weights, Infinity(weights), |prices|, best) < Infinity(weights)
    ensures Feasible(Reconstruct(prices, weights, Infinity(weights), |prices|, best), weights, capacity)
    ensures best == OptPrice(prices, weights, |prices|, capacity)
  {
    var inf, n := Infinity(weights), |prices|;
    var ones: seq<Bit> := seq(n, _ => 1);
    DotOnes(prices);
    DotOnes(weights);
    MinWeightIsLowerBound(prices, weights, inf, ones);
    if capacity >= inf {
      MinWeightAtMostInf(prices, weights, inf, n, Sum(prices));
      assert best == Sum(prices);
    }
    var x := Reconstruct(prices, weights, inf, n, best);
    ReconstructSound(prices, weights, inf, n, best);
    forall y: seq<Bit> | Feasible(y, weights, capacity) ensures Dot(y, prices) <= Dot(x, prices) {
      DotLeSum(y, prices);
      DotNonNegative(y, prices);
      MinWeightIsLowerBound(prices, weights, inf, y);
    }
    OptimalByDominance(prices, weights, capacity, x);
  }

  /** The optimum's cell is below the sentinel, so the walk back from it is defined. */
  lemma OptPriceReachable(prices: seq<nat>, weights: seq<nat>, capacity: nat)
    requires |prices| == |weights|
    ensures MinWeight(prices, weights, Infinity(weights), |prices|, OptPrice(prices, weights, |prices|, capacity)) < Infinity(weights)
  {
    var o := OptConfig(prices, weights, |prices|, capacity);
    OptConfigIsOptimal(prices, weights, |prices|, capacity);
    MinWeightIsLowerBound(prices, weights, Infinity(weights), o);
    DotLeSum(o, weights);
  }

  /** What `run` returns: the configuration read back from the optimum's cell. */
  function DpConfig(prices: seq<nat>, weights: seq<nat>, capacity: nat): (x: seq<Bit>)
    requires |prices| == |weights|
    ensures Feasible(x, weights, capacity) && Dot(x, prices) == OptPrice(prices, weights, |prices|, capacity)
  {
    OptPriceReachable(prices, weights, capacity);
    var best := OptPrice(prices, weights, |prices|, capacity);
    OptConfigIsOptimal(prices, weights, |prices|, capacity);
    MinWeightIsLowerBound(prices, weights, Infinity(weights), OptConfig(prices, weights, |prices|, capacity));
    ReconstructSound(prices, weights, Infinity(weights), |prices|, best);
    Reconstruct(prices, weights, Infinity(weights), |prices|, best)
  }

  class DynamicProgramming {
    const capacity: nat
    const prices: seq<nat>
    const weights: seq<nat>
    /** The sentinel written into cells no subset reaches. */
    var infinity: nat
    var table: array2<nat>
    var bestPrice: nat
    var bestConfig: array<Bit>

    /** The instance has one price and one weight per thing. */
    ghost predicate Valid()
    {
      |prices| == |weights|
    }

    /** Every cell of row i holds the recurrence's value. */
    ghost predicate RowFilled(i: nat)
      reads this`table, this`infinity, table
      requires Valid() && table.Length0 == |prices| + 1 && i < table.Length0
    {
      forall c {:trigger table[i, c]} :: 0 <= c < table.Length1 ==>
        table[i, c] == MinWeight(prices, weights, infinity, i, c)
    }

    /** Every cell of the table holds the recurrence's value. */
    ghost predicate Filled()
      reads this`table, this`infinity, table
      requires Valid()
    {
      table.Length0 == |prices| + 1 && table.Length1 == Sum(prices) + 1 &&
      forall i, c {:trigger table[i, c]} :: 0 <= i < table.Length0 && 0 <= c < table.Length1 ==>
        table[i, c] == MinWeight(prices, weights, infinity, i, c)
    }

    constructor (inst: Instance)
      requires inst.Valid()
      ensures Valid()
      ensures capacity == inst.capacity && prices == inst.prices && weights == inst.weights
    {
      capacity := inst.capacity;
      prices := inst.prices;
      weights := inst.weights;
      table := new nat[0, 0];
      bestConfig := new Bit[0];
    }

    /** `all_things_price`. */
    method AllThingsPrice() returns (price: nat)
      requires Valid()
      ensures price == Sum(prices)
    {
      price := 0;
      var i := 0;
      while i < |prices|
        invariant 0 <= i <= |prices|
        invariant price + SumFrom(prices, i) == Sum(prices)
      {
        price := price + prices[i];
        i := i + 1;
      }
    }

    /** `all_things_weight`. */
    method AllThingsWeight() returns (weight: nat)
      requires Valid()
      ensures weight == Sum(weights)
    {
      weight := 0;
      var i := 0;
      while i < |weights|
        invariant 0 <= i <= |weights|
        invariant weight + SumFrom(weights, i) == Sum(weights)
      {
        weight := weight + weights[i];
        i := i + 1;
      }
    }

    /**
      `solve`: the initial table (every cell the sentinel, except (0, 0)),
      then the filled table, the best price and the configuration.
     */
    method Solve()
      requires Valid()
      modifies this
      ensures Valid() && infinity == Infinity(weights)
      ensures fresh(table) && Filled()
      ensures bestPrice == OptPrice(prices, weights, |prices|, capacity)
      ensures fresh(bestConfig) && bestConfig[..] == DpConfig(prices, weights, capacity)
    {
      var width := AllThingsPrice();
      width := width + 1;
      var height := |prices| + 1;
      var totalWeight := AllThingsWeight();
      infinity := totalWeight + 1;
      var inf := infinity;
      table := new nat[height, width]((i, c) => inf);
      table[0, 0] := 0;
      assert forall c :: 0 <= c < width ==> table[0, c] == MinWeight(prices, weights, infinity, 0, c);
      FillTable();
      FindBestPrice();
      DpBestIsOptimal(prices, weights, capacity, bestPrice);
      ConfigurationVector();
    }

    /** `fill_table`: rows 1..n, each column 0..P, from the row above. */
    method FillTable()
      requires Valid()
      requires table.Length0 == |prices| + 1 && table.Length1 == Sum(prices) + 1
      requires forall c :: 0 <= c < table.Length1 ==> table[0, c] == MinWeight(prices, weights, infinity, 0, c)
      modifies table
      ensures Filled()
    {
      var ni := 1;
      while ni <= |prices|
        invariant 1 <= ni <= |prices| + 1
        invariant forall i, c {:trigger table[i, c]} :: 0 <= i < ni && 0 <= c < table.Length1 ==>
                    table[i, c] == MinWeight(prices, weights, infinity, i, c)
      {
        var top := AllThingsPrice();
        var ci := 0;
        while ci <= top
          invariant 0 <= ci <= top + 1
          invariant forall i, c {:trigger table[i, c]} :: 0 <= i < ni && 0 <= c < table.Length1 ==>
                      table[i, c] == MinWeight(prices, weights, infinity, i, c)
          invariant forall c {:trigger table[ni, c]} :: 0 <= c < ci ==>
                      table[ni, c] == MinWeight(prices, weights, infinity, ni, c)
        {
          var m := MinimumWeight(ni, ci);
          table[ni, ci] := m;
          ci := ci + 1;
        }
        ni := ni + 1;
      }
    }

    /** `weight_of`: a cell of a filled row, or the sentinel for a negative index. */
    method WeightOf(i: int, c: int) returns (w: nat)
      requires Valid() && table.Length0 == |prices| + 1 && i < table.Length0 && c < table.Length1
      requires 0 <= i ==> RowFilled(i)
      ensures i >= 0 ==> w == MinWeight(prices, weights, infinity, i, c)
      ensures i < 0 ==> w == infinity
    {
      if i < 0 || c < 0 {
        return infinity;
      }
      w := table[i, c];
    }

    /** `minimum_weight`: the lighter of leaving thing ni-1 out or taking it. */
    method MinimumWeight(ni: nat, ci: nat) returns (m: nat)
      requires Valid() && table.Length0 == |prices| + 1 && 1 <= ni < table.Length0 && ci < table.Length1
      requires RowFilled(ni - 1)
      ensures m == MinWeight(prices, weights, infinity, ni, ci)
    {
      var b := WeightOf(ni - 1, ci - prices[ni - 1]);
      b := b + weights[ni - 1];
      var a := WeightOf(ni - 1, ci);
      m := if a <= b then a else b;
    }

    /** `find_best_price`: the largest price in 0..P whose last-row cell fits. */
    method FindBestPrice()
      requires Valid() && Filled()
      modifies this`bestPrice
      ensures bestPrice <= Sum(prices)
      ensures MinWeight(prices, weights, infinity, |prices|, bestPrice) <= capacity
      ensures forall c :: bestPrice < c <= Sum(prices) ==>
                MinWeight(prices, weights, infinity, |prices|, c) > capacity
    {
      MinWeightColumnZero(prices, weights, infinity, |prices|);
      bestPrice := table[|prices|, 0];
      var top := AllThingsPrice();
      var i := 1;
      while i <= top
        invariant 1 <= i <= top + 1
        invariant bestPrice < i
        invariant MinWeight(prices, weights, infinity, |prices|, bestPrice) <= capacity
        invariant forall c :: bestPrice < c < i ==> MinWeight(prices, weights, infinity, |prices|, c) > capacity
      {
        if table[|prices|, i] <= capacity {
          bestPrice := i;
        }
        i := i + 1;
      }
    }

    /** `configuration_vector`: the walk back from (n, best price) down to row 0. */
    method ConfigurationVector()
      requires Valid() && Filled() && infinity == Infinity(weights)
      requires bestPrice <= Sum(prices) && MinWeight(prices, weights, infinity, |prices|, bestPrice) < infinity
      modifies this`bestConfig
      ensures fresh(bestConfig)
      ensures bestConfig[..] == Reconstruct(prices, weights, infinity, |prices|, bestPrice)
    {
      ghost var target := Reconstruct(prices, weights, infinity, |prices|, bestPrice);
      bestConfig := new Bit[|prices|];
      var ci := bestPrice;
      var i := |prices|;
      assert bestConfig[i..] == [];
      while i >= 1
        invariant 0 <= i <= |prices| && bestConfig.Length == |prices| && fresh(bestConfig)
        invariant ci <= Sum(prices) && MinWeight(prices, weights, infinity, i, ci) < infinity
        invariant target == Reconstruct(prices, weights, infinity, i, ci) + bestConfig[i..]
        modifies bestConfig
      {
        ghost var tail := bestConfig[i..];
        ghost var walked := Reconstruct(prices, weights, infinity, i, ci);
        var next := DetermineConfigVariable(i, ci);
        ghost var head := Reconstruct(prices, weights, infinity, i - 1, next);
        ConcatStep(target, walked, head, bestConfig[i - 1], tail);
        ci := next;
        i := i - 1;
      }
      assert Reconstruct(prices, weights, infinity, 0, ci) == [];
      assert bestConfig[0..] == bestConfig[..];
    }

    /** `determine_config_variable`: one step of the walk back. */
    method DetermineConfigVariable(i: nat, ci: nat) returns (next: nat)
      requires Valid() && Filled()
      requires 1 <= i <= |prices| == bestConfig.Length && ci <= Sum(prices)
      requires MinWeight(prices, weights, infinity, i, ci) < infinity
      modifies bestConfig
      ensures next <= ci && MinWeight(prices, weights, infinity, i - 1, next) < infinity
      ensures Reconstruct(prices, weights, infinity, i, ci)
              == Reconstruct(prices, weights, infinity, i - 1, next) + [bestConfig[i - 1]]
      ensures bestConfig[..i - 1] == old(bestConfig[..i - 1])
      ensures bestConfig[i - 1..] == [bestConfig[i - 1]] + old(bestConfig[i..])
    {
      if table[i, ci] == table[i - 1, ci] {
        bestConfig[i - 1] := 0;
        next := ci;
      } else {
        bestConfig[i - 1] := 1;
        assert ci >= prices[i - 1];
        next := ci - prices[i - 1];
      }
    }

    /**
      `run`: the price and configuration found. The price is the optimum,
      the configuration fits, and both depend only on the instance, so a
      second run returns the same.
     */
    method Run() returns (price: nat, cfg: seq<Bit>)
      requires Valid()
      modifies this
      ensures Valid()
      ensures price == OptPrice(prices, weights, |prices|, capacity)
      ensures cfg == DpConfig(prices, weights, capacity)
      ensures |cfg| == |prices| && Feasible(cfg, weights, capacity) && Dot(cfg, prices) == price
    {
      Solve();
      price := bestPrice;
      cfg := bestConfig[..];
    }
  }
}
