/**
  heuristic_price_weight.rb: the greedy heuristic. Things are visited by
  non-increasing price/weight ratio and put into the knapsack until the
  first one that would overflow it; no later thing is looked at.
 */
module HeuristicSolver {
  import opened Knapsack
  import opened Instances

  // ------------------------------------------------------------ the ratio order

  /**
    Thing a's price/weight ratio is at least thing b's, by cross-multiplication.
    A zero weight with a positive price is an infinite ratio and compares as
    the float infinity does; a thing with price and weight both 0 has no ratio.
   */
  predicate RatioGe(prices: seq<nat>, weights: seq<nat>, a: nat, b: nat)
    requires a < |prices| == |weights| && b < |prices|
  {
    prices[a] * weights[b] >= prices[b] * weights[a]
  }

  /** The ratio of thing i is a number (possibly infinite), not NaN. */
  predicate HasRatio(prices: seq<nat>, weights: seq<nat>, i: nat)
    requires i < |prices| == |weights|
  {
    prices[i] > 0 || weights[i] > 0
  }

  /**
    The sort compares without failing: with two or more things every thing
    takes part in a comparison, and a NaN ratio makes the comparison fail.
   */
  predicate Comparable(prices: seq<nat>, weights: seq<nat>)
    requires |prices| == |weights|
  {
    |prices| <= 1 || forall i :: 0 <= i < |prices| ==> HasRatio(prices, weights, i)
  }

  /** Every index of `order` names a thing. */
  predicate InRange(order: seq<nat>, n: nat)
  {
    forall j :: 0 <= j < |order| ==> order[j] < n
  }

  /** `order` lists the things by non-increasing ratio. */
  predicate SortedByRatio(prices: seq<nat>, weights: seq<nat>, order: seq<nat>)
    requires |prices| == |weights| && InRange(order, |prices|)
  {
    forall j, k :: 0 <= j < k < |order| ==> RatioGe(prices, weights, order[j], order[k])
  }

  /** The indices 0..n-1. */
  function Indices(n: nat): (s: seq<nat>)
    ensures |s| == n && forall i :: 0 <= i < n ==> s[i] == i
  {
    seq(n, i => i)
  }

  lemma RatioGeTotal(prices: seq<nat>, weights: seq<nat>, a: nat, b: nat)
    requires a < |prices| == |weights| && b < |prices|
    ensures RatioGe(prices, weights, a, b) || RatioGe(prices, weights, b, a)
  {
  }

  /** The ratio order is transitive through any thing that has a ratio. */
  lemma RatioGeTransitive(prices: seq<nat>, weights: seq<nat>, a: nat, b: nat, c: nat)
    requires a < |prices| == |weights| && b < |prices| && c < |prices|
    requires HasRatio(prices, weights, b)
    requires RatioGe(prices, weights, a, b) && RatioGe(prices, weights, b, c)
    ensures RatioGe(prices, weights, a, c)
  {
    CrossTransitive(prices[a], weights[a], prices[b], weights[b], prices[c], weights[c]);
  }

  /** pa/wa >= pb/wb >= pc/wc, cross-multiplied, through a middle ratio that is not 0/0. */
  lemma CrossTransitive(pa: nat, wa: nat, pb: nat, wb: nat, pc: nat, wc: nat)
    requires pb > 0 || wb > 0
    requires pa * wb >= pb * wa && pb * wc >= pc * wb
    ensures pa * wc >= pc * wa
  {
    if wb == 0 {
      assert pb * wa <= 0;
      assert wa == 0;
    } else {
      MulMonotone(pa * wb, pb * wa, wc);
      MulMonotone(pb * wc, pc * wb, wa);
      assert (pa * wc) * wb >= (pc * wa) * wb by {
        assert (pa * wb) * wc == (pa * wc) * wb;
        assert (pb * wa) * wc == (pb * wc) * wa;
        assert (pc * wb) * wa == (pc * wa) * wb;
      }
      CancelPositive(pa * wc, pc * wa, wb);
    }
  }

  // ------------------------------------------------------------ the sort

  /** Insert thing x in front of the first thing whose ratio it reaches. */
  function Insert(prices: seq<nat>, weights: seq<nat>, x: nat, s: seq<nat>): (r: seq<nat>)
    requires |prices| == |weights| && x < |prices| && InRange(s, |prices|)
    ensures multiset(r) == multiset(s) + multiset{x} && InRange(r, |prices|)
  {
    if s == [] then [x]
    else if RatioGe(prices, weights, x, s[0]) then [x] + s
    else
      var r := [s[0]] + Insert(prices, weights, x, s[1..]);
      assert s == [s[0]] + s[1..];
      assert forall j :: 0 <= j < |r| ==> r[j] in multiset(r);
      r
  }

  /** The ordering of `instance.things.sort`, on thing indices. */
  function SortByRatio(prices: seq<nat>, weights: seq<nat>, xs: seq<nat>): (r: seq<nat>)
    requires |prices| == |weights| && InRange(xs, |prices|)
    ensures multiset(r) == multiset(xs) && InRange(r, |prices|)
  {
    if xs == [] then []
    else
      assert xs == [xs[0]] + xs[1..];
      Insert(prices, weights, xs[0], SortByRatio(prices, weights, xs[1..]))
  }

  lemma {:induction false} InsertSorted(prices: seq<nat>, weights: seq<nat>, x: nat, s: seq<nat>)
    requires |prices| == |weights| && x < |prices| && InRange(s, |prices|)
    requires SortedByRatio(prices, weights, s)
    requires forall j :: 0 <= j < |s| ==> HasRatio(prices, weights, s[j])
    ensures SortedByRatio(prices, weights, Insert(prices, weights, x, s))
  {
    if s != [] {
      if RatioGe(prices, weights, x, s[0]) {
        forall k | 0 < k < |s| ensures RatioGe(prices, weights, x, s[k]) {
          RatioGeTransitive(prices, weights, x, s[0], s[k]);
        }
      } else {
        var rest := Insert(prices, weights, x, s[1..]);
        InsertSorted(prices, weights, x, s[1..]);
        RatioGeTotal(prices, weights, x, s[0]);
        forall k | 0 <= k < |rest| ensures RatioGe(prices, weights, s[0], rest[k]) {
          assert rest[k] in multiset(rest);
          if rest[k] != x {
            assert rest[k] in multiset(s[1..]);
            var m :| 0 <= m < |s[1..]| && s[1..][m] == rest[k];
            assert s[m + 1] == rest[k];
          }
        }
      }
    }
  }

  /** The sorted order is a permutation of the input, by non-increasing ratio. */
  lemma {:induction false} SortByRatioSorted(prices: seq<nat>, weights: seq<nat>, xs: seq<nat>)
    requires |prices| == |weights| && InRange(xs, |prices|)
    requires forall j :: 0 <= j < |xs| ==> HasRatio(prices, weights, xs[j])
    ensures SortedByRatio(prices, weights, SortByRatio(prices, weights, xs))
  {
    if xs != [] {
      var sorted := SortByRatio(prices, weights, xs[1..]);
      SortByRatioSorted(prices, weights, xs[1..]);
      forall j | 0 <= j < |sorted| ensures HasRatio(prices, weights, sorted[j]) {
        assert sorted[j] in multiset(xs[1..]);
        var m :| 0 <= m < |xs[1..]| && xs[1..][m] == sorted[j];
        assert xs[m + 1] == sorted[j];
      }
      InsertSorted(prices, weights, xs[0], sorted);
    }
  }

  // ------------------------------------------------------------ the scan

  /**
    The configuration `solve` leaves behind when it starts from `cfg` at
    position j of `order`: it stops at the first thing whose weight, added
    to the configuration's weight, exceeds the capacity.
   */
  function Greedy(weights: seq<nat>, capacity: nat, order: seq<nat>, cfg: seq<Bit>, j: nat): (r: seq<Bit>)
    requires |cfg| == |weights| && InRange(order, |cfg|) && j <= |order|
    ensures |r| == |cfg|
    decreases |order| - j
  {
    if j == |order| then cfg
    else if Dot(cfg, weights) + weights[order[j]] > capacity then cfg
    else Greedy(weights, capacity, order, cfg[order[j] := 1], j + 1)
  }

  /** The position at which that scan stops (|order| when it never breaks). */
  function StopIndex(weights: seq<nat>, capacity: nat, order: seq<nat>, cfg: seq<Bit>, j: nat): (k: nat)
    requires |cfg| == |weights| && InRange(order, |cfg|) && j <= |order|
    ensures j <= k <= |order|
    decreases |order| - j
  {
    if j == |order| then j
    else if Dot(cfg, weights) + weights[order[j]] > capacity then j
    else StopIndex(weights, capacity, order, cfg[order[j] := 1], j + 1)
  }

  /**
    The scan marks exactly the things of `order[j..k]`, k the stop
    position, on top of what `cfg` already holds: the selected set is a
    prefix of the visiting order.
   */
  lemma {:induction false} GreedyMarksPrefix(weights: seq<nat>, capacity: nat, order: seq<nat>, cfg: seq<Bit>, j: nat, t: nat)
    requires |cfg| == |weights| && InRange(order, |cfg|) && j <= |order| && t < |cfg|
    ensures Greedy(weights, capacity, order, cfg, j)[t] == 1 <==>
              cfg[t] == 1 || t in order[j..StopIndex(weights, capacity, order, cfg, j)]
    decreases |order| - j
  {
    if j < |order| && Dot(cfg, weights) + weights[order[j]] <= capacity {
      GreedyMarksPrefix(weights, capacity, order, cfg[order[j] := 1], j + 1, t);
      var k := StopIndex(weights, capacity, order, cfg, j);
      assert order[j..k] == [order[j]] + order[j + 1..k];
    }
  }

  /** When the scan breaks, it breaks on a thing that does not fit next to what it selected. */
  lemma {:induction false} GreedyStopsOnOverflow(weights: seq<nat>, capacity: nat, order: seq<nat>, cfg: seq<Bit>, j: nat)
    requires |cfg| == |weights| && InRange(order, |cfg|) && j <= |order|
    ensures StopIndex(weights, capacity, order, cfg, j) < |order| ==>
              Dot(Greedy(weights, capacity, order, cfg, j), weights)
              + weights[order[StopIndex(weights, capacity, order, cfg, j)]] > capacity
    decreases |order| - j
  {
    if j < |order| && Dot(cfg, weights) + weights[order[j]] <= capacity {
      GreedyStopsOnOverflow(weights, capacity, order, cfg[order[j] := 1], j + 1);
    }
  }

  /** A scan from a configuration that fits leaves one that fits. */
  lemma {:induction false} GreedyFits(weights: seq<nat>, capacity: nat, order: seq<nat>, cfg: seq<Bit>, j: nat)
    requires |cfg| == |weights| && InRange(order, |cfg|) && j <= |order|
    requires Dot(cfg, weights) <= capacity
    ensures Dot(Greedy(weights, capacity, order, cfg, j), weights) <= capacity
    decreases |order| - j
  {
    if j < |order| && Dot(cfg, weights) + weights[order[j]] <= capacity {
      var t := order[j];
      if cfg[t] == 0 {
        DotSetOne(cfg, weights, t);
      } else {
        assert cfg[t := 1] == cfg;
      }
      GreedyFits(weights, capacity, order, cfg[t := 1], j + 1);
    }
  }

  /**
    A scan over a configuration in which everything before position k is
    already marked and the thing at k does not fit changes nothing.
   */
  lemma {:induction false} GreedyFixedPoint(weights: seq<nat>, capacity: nat, order: seq<nat>, cfg: seq<Bit>, j: nat, k: nat)
    requires |cfg| == |weights| && InRange(order, |cfg|) && j <= k <= |order|
    requires forall m :: j <= m < k ==> cfg[order[m]] == 1
    requires k < |order| ==> Dot(cfg, weights) + weights[order[k]] > capacity
    ensures Greedy(weights, capacity, order, cfg, j) == cfg
    decreases |order| - j
  {
    if j < k && Dot(cfg, weights) + weights[order[j]] <= capacity {
      assert cfg[order[j] := 1] == cfg;
      GreedyFixedPoint(weights, capacity, order, cfg, j + 1, k);
    }
  }

  /**
    A second scan over the configuration a scan left behind leaves it as it
    is: it breaks no later than the first one did.
   */
  lemma GreedyIdempotent(weights: seq<nat>, capacity: nat, order: seq<nat>, cfg: seq<Bit>)
    requires |cfg| == |weights| && InRange(order, |cfg|)
    ensures Greedy(weights, capacity, order, Greedy(weights, capacity, order, cfg, 0), 0)
            == Greedy(weights, capacity, order, cfg, 0)
  {
    var r := Greedy(weights, capacity, order, cfg, 0);
    var k := StopIndex(weights, capacity, order, cfg, 0);
    forall m | 0 <= m < k ensures r[order[m]] == 1 {
      GreedyMarksPrefix(weights, capacity, order, cfg, 0, order[m]);
      assert order[m] == order[0..k][m];
    }
    GreedyStopsOnOverflow(weights, capacity, order, cfg, 0);
    GreedyFixedPoint(weights, capacity, order, r, 0, k);
  }

  class HeuristicPriceToWeight {
    const capacity: nat
    const prices: seq<nat>
    const weights: seq<nat>
    /** `@sorted_things`, as thing indices. */
    const sortedThings: seq<nat>
    /** The working configuration, indexed by original thing index. */
    const config: array<Bit>
    var bestPrice: nat
    var bestConfig: seq<Bit>

    ghost predicate Valid()
      reads this
    {
      |prices| == |weights| == config.Length && InRange(sortedThings, |prices|)
    }

    /** `initialize`: an all-zero configuration and the things sorted by ratio. */
    constructor (inst: Instance)
      requires inst.Valid() && Comparable(inst.prices, inst.weights)
      ensures Valid() && fresh(config)
      ensures capacity == inst.capacity && prices == inst.prices && weights == inst.weights
      ensures config[..] == Zeros(|prices|)
      ensures sortedThings == SortByRatio(prices, weights, Indices(|prices|))
      ensures multiset(sortedThings) == multiset(Indices(|prices|))
      ensures SortedByRatio(prices, weights, sortedThings)
    {
      capacity := inst.capacity;
      prices := inst.prices;
      weights := inst.weights;
      config := new Bit[|inst.prices|](_ => 0);
      var all := Indices(|inst.prices|);
      var sorted := SortByRatio(inst.prices, inst.weights, all);
      if |inst.prices| > 1 {
        SortByRatioSorted(inst.prices, inst.weights, all);
      } else {
        assert |sorted| == |multiset(sorted)| == |multiset(all)| == |all|;
      }
      sortedThings := sorted;
    }

    /** `config_weight`: the weight of the working configuration. */
    method ConfigWeight() returns (weight: int)
      requires Valid()
      ensures weight == Dot(config[..], weights)
    {
      weight := 0;
      var i := 0;
      while i < config.Length
        invariant 0 <= i <= config.Length
        invariant weight == Dot(config[..i], weights)
      {
        assert config[..i + 1][..i] == config[..i];
        weight := weight + config[i] * weights[i];
        i := i + 1;
      }
      assert config[..config.Length] == config[..];
    }

    /** `config_price`: the price of the working configuration. */
    method ConfigPrice() returns (price: int)
      requires Valid()
      ensures price == Dot(config[..], prices)
    {
      price := 0;
      var i := 0;
      while i < config.Length
        invariant 0 <= i <= config.Length
        invariant price == Dot(config[..i], prices)
      {
        assert config[..i + 1][..i] == config[..i];
        price := price + config[i] * prices[i];
        i := i + 1;
      }
      assert config[..config.Length] == config[..];
    }

    /** `solve`: the scan with `break`, then the price and a copy of the configuration. */
    method Solve()
      requires Valid()
      modifies this, config
      ensures Valid()
      ensures config[..] == Greedy(weights, capacity, sortedThings, old(config[..]), 0)
      ensures bestConfig == config[..] && bestPrice == Dot(config[..], prices)
    {
      var j := 0;
      while j < |sortedThings|
        invariant 0 <= j <= |sortedThings|
        invariant Greedy(weights, capacity, sortedThings, old(config[..]), 0)
                  == Greedy(weights, capacity, sortedThings, config[..], j)
      {
        var thing := sortedThings[j];
        var weight := ConfigWeight();
        if weight + weights[thing] > capacity {
          break;
        }
        config[thing] := 1;
        j := j + 1;
      }
      var price := ConfigPrice();
      DotNonNegative(config[..], prices);
      bestPrice := price;
      bestConfig := config[..];
    }

    /**
      `run`: the price and configuration of the scan. From a configuration
      that fits (the all-zero one of a fresh solver) the result fits and is
      at most the optimum, and running again returns the same result.
     */
    method Run() returns (price: nat, cfg: seq<Bit>)
      requires Valid()
      modifies this, config
      ensures Valid()
      ensures cfg == config[..] == Greedy(weights, capacity, sortedThings, old(config[..]), 0)
      ensures |cfg| == |prices| && price == Dot(cfg, prices)
      ensures old(Dot(config[..], weights)) <= capacity ==>
                Feasible(cfg, weights, capacity) && price <= OptPrice(prices, weights, |prices|, capacity)
      ensures Greedy(weights, capacity, sortedThings, cfg, 0) == cfg
    {
      ghost var start := config[..];
      Solve();
      price := bestPrice;
      cfg := bestConfig;
      if Dot(start, weights) <= capacity {
        GreedyFits(weights, capacity, sortedThings, start, 0);
        OptPriceIsUpperBound(prices, weights, cfg, capacity);
      }
      GreedyIdempotent(weights, capacity, sortedThings, start);
    }
  }

  /** A fresh solver's run fits, stays at most the optimum, and selects a prefix of the visiting order. */
  lemma FirstRun(weights: seq<nat>, capacity: nat, order: seq<nat>, t: nat)
    requires InRange(order, |weights|) && t < |weights|
    ensures Dot(Greedy(weights, capacity, order, Zeros(|weights|), 0), weights) <= capacity
    ensures Greedy(weights, capacity, order, Zeros(|weights|), 0)[t] == 1 <==>
              t in order[..StopIndex(weights, capacity, order, Zeros(|weights|), 0)]
  {
    DotZerosTail([], |weights|, weights);
    assert [] + Zeros(|weights|) == Zeros(|weights|);
    GreedyFits(weights, capacity, order, Zeros(|weights|), 0);
    GreedyMarksPrefix(weights, capacity, order, Zeros(|weights|), 0, t);
    assert order[0..StopIndex(weights, capacity, order, Zeros(|weights|), 0)]
        == order[..StopIndex(weights, capacity, order, Zeros(|weights|), 0)];
  }
}
