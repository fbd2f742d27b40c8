/**
  branch_and_bound.rb: exact solver. A depth-first search over one shared
  configuration array that is backtracked in place; a branch is cut when
  the last thing is decided, when the decided prefix is overweight, or when
  even adding every undecided thing cannot beat the best price so far.
 */
module BranchAndBoundSolver {
  import opened Knapsack
  import opened Instances

  /** Every feasible configuration that starts with `prefix` has a price of at most `bound`. */
  ghost predicate Covered(prices: seq<nat>, weights: seq<nat>, capacity: nat, prefix: seq<Bit>, bound: int)
    requires |prices| == |weights|
  {
    |prefix| <= |weights| &&
    forall c: seq<Bit> :: |c| == |weights| && c[..|prefix|] == prefix && Dot(c, weights) <= capacity
                          ==> Dot(c, prices) <= bound
  }

  /** The two children of a node cover it. */
  lemma CoveredBySplit(prices: seq<nat>, weights: seq<nat>, capacity: nat, prefix: seq<Bit>, bound: int)
    requires |prices| == |weights| && |prefix| < |weights|
    requires Covered(prices, weights, capacity, prefix + [0], bound)
    requires Covered(prices, weights, capacity, prefix + [1], bound)
    ensures Covered(prices, weights, capacity, prefix, bound)
  {
    forall c: seq<Bit> | |c| == |weights| && c[..|prefix|] == prefix && Dot(c, weights) <= capacity
      ensures Dot(c, prices) <= bound
    {
      assert c[..|prefix| + 1] == prefix + [c[|prefix|]];
    }
  }

  /** A complete configuration covers itself with its own price (when it fits). */
  lemma CoveredWhenComplete(prices: seq<nat>, weights: seq<nat>, capacity: nat, prefix: seq<Bit>, bound: int)
    requires |prices| == |weights| == |prefix|
    requires Dot(prefix, weights) <= capacity ==> Dot(prefix, prices) <= bound
    ensures Covered(prices, weights, capacity, prefix, bound)
  {
    forall c: seq<Bit> | |c| == |weights| && c[..|prefix|] == prefix && Dot(c, weights) <= capacity
      ensures Dot(c, prices) <= bound
    {
      assert c == c[..|prefix|];
    }
  }

  /** No extension of an overweight prefix fits. */
  lemma CoveredWhenOverweight(prices: seq<nat>, weights: seq<nat>, capacity: nat, prefix: seq<Bit>, bound: int)
    requires |prices| == |weights| && |prefix| <= |weights|
    requires Dot(prefix, weights) > capacity
    ensures Covered(prices, weights, capacity, prefix, bound)
  {
    forall c: seq<Bit> | |c| == |weights| && c[..|prefix|] == prefix
      ensures Dot(c, weights) > capacity
    {
      DotPrefixLe(c, weights, |prefix|);
    }
  }

  /** The optimistic bound: prefix price plus every undecided price. */
  lemma CoveredByBound(prices: seq<nat>, weights: seq<nat>, capacity: nat, prefix: seq<Bit>, bound: int)
    requires |prices| == |weights| && |prefix| <= |weights|
    requires Dot(prefix, prices) + SumFrom(prices, |prefix|) <= bound
    ensures Covered(prices, weights, capacity, prefix, bound)
  {
    forall c: seq<Bit> | |c| == |weights| && c[..|prefix|] == prefix
      ensures Dot(c, prices) <= bound
    {
      DotSuffixBound(c, prices, |prefix|);
    }
  }

  lemma CoveredMonotone(prices: seq<nat>, weights: seq<nat>, capacity: nat, prefix: seq<Bit>, bound: int, bound': int)
    requires |prices| == |weights|
    requires Covered(prices, weights, capacity, prefix, bound) && bound <= bound'
    ensures Covered(prices, weights, capacity, prefix, bound')
  {
  }

  class BranchAndBound {
    const capacity: nat
    const prices: seq<nat>
    const weights: seq<nat>
    /** The decision array shared by the whole search. */
    const config: array<Bit>
    /** Whether a best price has been recorded yet. */
    var hasBest: bool
    var bestPrice: nat
    var bestConfig: seq<Bit>
    var bestConfigIndex: nat

    ghost predicate Valid()
      reads this
    {
      |prices| == |weights| == config.Length &&
      (hasBest ==> |bestConfig| == config.Length && Dot(bestConfig, prices) == bestPrice)
    }

    /** The recorded best configuration fits into the knapsack. */
    ghost predicate BestFeasible()
      reads this
      requires Valid()
    {
      hasBest ==> Dot(bestConfig, weights) <= capacity
    }

    constructor (inst: Instance)
      requires inst.Valid()
      ensures Valid() && BestFeasible() && !hasBest
      ensures capacity == inst.capacity && prices == inst.prices && weights == inst.weights
      ensures fresh(config)
    {
      capacity := inst.capacity;
      prices := inst.prices;
      weights := inst.weights;
      config := new Bit[|inst.prices|];
      hasBest := false;
      bestPrice := 0;
      bestConfig := [];
      bestConfigIndex := 0;
    }

    /** `config_weight(0, endIndex)`: the weight of the decided prefix. */
    method ConfigWeight(endIndex: nat) returns (weight: int)
      requires Valid() && endIndex < config.Length
      ensures weight == Dot(config[..endIndex + 1], weights)
    {
      weight := 0;
      var i := 0;
      while i <= endIndex
        invariant 0 <= i <= endIndex + 1
        invariant weight == Dot(config[..i], weights)
      {
        assert config[..i + 1][..i] == config[..i];
        weight := weight + config[i] * weights[i];
        i := i + 1;
      }
    }

    /** `config_price(0, endIndex)`: the price of the decided prefix. */
    method ConfigPrice(endIndex: nat) returns (price: int)
      requires Valid() && endIndex < config.Length
      ensures price == Dot(config[..endIndex + 1], prices)
    {
      price := 0;
      var i := 0;
      while i <= endIndex
        invariant 0 <= i <= endIndex + 1
        invariant price == Dot(config[..i], prices)
      {
        assert config[..i + 1][..i] == config[..i];
        price := price + config[i] * prices[i];
        i := i + 1;
      }
    }

    /** `get_price_of_remaining_things`: the sum of the prices of things `fromIndex..`. */
    method PriceOfRemainingThings(fromIndex: nat) returns (price: nat)
      requires Valid() && fromIndex <= config.Length
      ensures price == SumFrom(prices, fromIndex)
    {
      price := 0;
      var i := fromIndex;
      while i < |prices|
        invariant fromIndex <= i <= |prices|
        invariant price + SumFrom(prices, i) == SumFrom(prices, fromIndex)
      {
        price := price + prices[i];
        i := i + 1;
      }
    }

    /**
      `update_best_price`: the first call records unconditionally; later a
      prefix replaces the record only if it fits and is strictly better.
      The stored configuration is the prefix padded with zeros.
     */
    method UpdateBestPrice(price: int, weight: int, index: nat)
      requires Valid() && index < config.Length
      requires price == Dot(config[..index + 1], prices) && weight == Dot(config[..index + 1], weights)
      modifies this
      ensures Valid() && hasBest
      ensures if !old(hasBest) || (weight <= capacity && price > old(bestPrice)) then
                bestPrice == price && bestConfig == config[..index + 1] + Zeros(config.Length - index - 1)
                && bestConfigIndex == index
              else
                bestPrice == old(bestPrice) && bestConfig == old(bestConfig)
                && bestConfigIndex == old(bestConfigIndex)
      ensures old(BestFeasible()) && (old(hasBest) || weight <= capacity) ==> BestFeasible()
    {
      if !hasBest || (weight <= capacity && price > bestPrice) {
        DotNonNegative(config[..index + 1], prices);
        bestPrice := price;
        var validLen := index + 1;
        var remaining := config.Length - index - 1;
        bestConfig := config[..validLen] + Zeros(remaining);
        DotZerosTail(config[..validLen], remaining, prices);
        DotZerosTail(config[..validLen], remaining, weights);
        bestConfigIndex := index;
        hasBest := true;
      }
    }

    /**
      `stop`: records the decided prefix as a candidate, then tells whether
      the branch ends here. When it does, no feasible completion of the
      prefix beats the best price.
     */
    method Stop(index: nat) returns (stop: bool)
      requires Valid() && BestFeasible() && index < config.Length
      requires hasBest || (index == 0 && config[0] == 0)
      modifies this
      ensures Valid() && BestFeasible() && hasBest
      ensures var p := Dot(config[..index + 1], prices); var w := Dot(config[..index + 1], weights);
              if !old(hasBest) || (w <= capacity && p > old(bestPrice)) then
                bestPrice == p && bestConfig == config[..index + 1] + Zeros(config.Length - index - 1)
              else
                bestPrice == old(bestPrice) && bestConfig == old(bestConfig)
      ensures stop <==> index == config.Length - 1
                        || Dot(config[..index + 1], weights) > capacity
                        || Dot(config[..index + 1], prices) + SumFrom(prices, index + 1) <= bestPrice
      ensures stop ==> Covered(prices, weights, capacity, config[..index + 1], bestPrice)
    {
      var weight := ConfigWeight(index);
      var price := ConfigPrice(index);
      if !hasBest {
        assert config[..1] == [0];
      }
      UpdateBestPrice(price, weight, index);
      if index >= config.Length - 1 {
        CoveredWhenComplete(prices, weights, capacity, config[..index + 1], bestPrice);
        return true;
      }
      if weight > capacity {
        CoveredWhenOverweight(prices, weights, capacity, config[..index + 1], bestPrice);
        return true;
      }
      var remaining := PriceOfRemainingThings(index + 1);
      if hasBest && price + remaining <= bestPrice {
        CoveredByBound(prices, weights, capacity, config[..index + 1], bestPrice);
        return true;
      }
      return false;
    }

    /**
      `solve(index)`: try thing `index` out, then in, recursing unless the
      branch stops. On return the decided cells before `index` are as they
      were, the best price never decreased, and it covers every feasible
      completion of those cells.
     */
    method Solve(index: nat)
      requires Valid() && BestFeasible() && index < config.Length
      requires hasBest || index == 0
      modifies this, config
      ensures Valid() && BestFeasible() && hasBest
      ensures config[..index] == old(config[..index])
      ensures old(hasBest) ==> old(bestPrice) <= bestPrice
      ensures old(hasBest) && bestPrice == old(bestPrice) ==> bestConfig == old(bestConfig)
      ensures Covered(prices, weights, capacity, config[..index], bestPrice)
      decreases config.Length - index, 1
    {
      ghost var prefix := config[..index];
      Branch(index, 0);
      ghost var bound0 := bestPrice;
      Branch(index, 1);
      assert config[..index] == config[..index + 1][..index] == prefix;
      CoveredMonotone(prices, weights, capacity, prefix + [0], bound0, bestPrice);
      CoveredBySplit(prices, weights, capacity, prefix, bestPrice);
    }

    /** One half of `solve(index)`: decide thing `index` as `bit`, and go deeper unless the branch stops. */
    method Branch(index: nat, bit: Bit)
      requires Valid() && BestFeasible() && index < config.Length
      requires hasBest || (index == 0 && bit == 0)
      modifies this, config
      ensures Valid() && BestFeasible() && hasBest
      ensures config[..index + 1] == old(config[..index]) + [bit]
      ensures old(hasBest) ==> old(bestPrice) <= bestPrice
      ensures old(hasBest) && bestPrice == old(bestPrice) ==> bestConfig == old(bestConfig)
      ensures Covered(prices, weights, capacity, old(config[..index]) + [bit], bestPrice)
      decreases config.Length - index, 0
    {
      ghost var prefix := config[..index];
      config[index] := bit;
      assert config[..index + 1] == prefix + [bit];
      var stop := Stop(index);
      if !stop {
        Solve(index + 1);
      }
    }

    /**
      `run`: the best price and the configuration realizing it, which is
      optimal. Run again on the same object, the search keeps its record
      and returns the same configuration.
     */
    method Run() returns (price: nat, cfg: seq<Bit>)
      requires Valid() && BestFeasible() && config.Length >= 1
      modifies this, config
      ensures Valid() && BestFeasible() && hasBest
      ensures price == bestPrice && cfg == bestConfig
      ensures Feasible(cfg, weights, capacity) && Dot(cfg, prices) == price
      ensures price == OptPrice(prices, weights, |prices|, capacity)
      ensures old(hasBest) && old(bestPrice) == OptPrice(prices, weights, |prices|, capacity)
              ==> cfg == old(bestConfig)
    {
      Solve(0);
      price := bestPrice;
      cfg := bestConfig;
      forall x: seq<Bit> | Feasible(x, weights, capacity) ensures Dot(x, prices) <= Dot(cfg, prices) {
        assert x[..0] == config[..0];
      }
      OptimalByDominance(prices, weights, capacity, cfg);
    }
  }
}
