/**
  fptas.rb: the fully polynomial time approximation scheme. The prices of
  the instance's things are rewritten in place to floor(price / k), with
  k = epsilon * max_price / n, the exact dynamic programming solver runs on
  the rescaled instance, and the configuration it returns is priced again
  with the prices captured at construction.

  Epsilon is a rational num/den in (0, 1), so floor(price / k) is
  floor(price * n * den / (num * max_price)).
 */
module FptasSolver {
  import opened Knapsack
  import opened Instances
  import opened DynamicProgrammingSolver

  datatype Fraction = Fraction(num: nat, den: nat)

  /** The values the epsilon option may take: a fraction strictly between 0 and 1. */
  type Epsilon = e: Fraction | 0 < e.num < e.den witness Fraction(1, 2)

  /** `things.max_by(&:price).price`. */
  function MaxPrice(prices: seq<nat>): (m: nat)
    requires |prices| > 0
    ensures forall i :: 0 <= i < |prices| ==> prices[i] <= m
    ensures exists i :: 0 <= i < |prices| && prices[i] == m
  {
    if |prices| == 1 then prices[0]
    else
      var rest := MaxPrice(prices[1..]);
      assert forall i :: 1 <= i < |prices| ==> prices[i] == prices[1..][i - 1];
      if prices[0] >= rest then prices[0] else rest
  }

  /** floor(p / k) for k = eps * m / n, in exact arithmetic. */
  function Scaled(p: nat, eps: Epsilon, m: nat, n: nat): nat
    requires m > 0
  {
    (p * n * eps.den) / (eps.num * m)
  }

  /** Every price scaled with the same k, computed from m. */
  function RescaleBy(prices: seq<nat>, eps: Epsilon, m: nat): (r: seq<nat>)
    requires m > 0
    ensures |r| == |prices|
    ensures forall i :: 0 <= i < |prices| ==> r[i] == Scaled(prices[i], eps, m, |prices|)
  {
    seq(|prices|, i requires 0 <= i < |prices| => Scaled(prices[i], eps, m, |prices|))
  }

  /** `modify_prices_for_epsilon!` as a function: k from the largest price of all things. */
  function Rescale(prices: seq<nat>, eps: Epsilon): (r: seq<nat>)
    requires |prices| > 0 && MaxPrice(prices) > 0
    ensures |r| == |prices|
  {
    RescaleBy(prices, eps, MaxPrice(prices))
  }

  /** `get_normal_price_from_fptas`: the original prices of the things whose cell is not 0. */
  function NormalPrice(presence: seq<Bit>, origPrices: seq<nat>): (price: nat)
    requires |presence| <= |origPrices|
    ensures price == Dot(presence, origPrices)
  {
    if |presence| == 0 then 0
    else
      var last := |presence| - 1;
      NormalPrice(presence[..last], origPrices) + (if presence[last] != 0 then origPrices[last] else 0)
  }

  /** The configuration the solver returns: the exact solver's, on the rescaled prices. */
  function FptasConfig(prices: seq<nat>, weights: seq<nat>, capacity: nat, eps: Epsilon): (c: seq<Bit>)
    requires |prices| == |weights| > 0 && MaxPrice(prices) > 0
    ensures Feasible(c, weights, capacity)
  {
    DpConfig(Rescale(prices, eps), weights, capacity)
  }

  // ------------------------------------------------------------ rescaling facts

  lemma LessCancel(x: int, y: int, k: nat)
    requires k > 0 && x * k < y * k
    ensures x < y
  {
    if x >= y {
      MulMonotone(x, y, k);
    }
  }

  lemma DivMonotone(a: nat, b: nat, d: nat)
    requires a <= b && d > 0
    ensures a / d <= b / d
  {
    assert (a / d) * d <= a;
    assert b < (b / d + 1) * d;
    LessCancel(a / d, b / d + 1, d);
  }

  lemma DivCancel(a: nat, b: nat, m: nat)
    requires b > 0 && m > 0
    ensures (a * m) / (b * m) == a / b
  {
    var q, r := a / b, a % b;
    assert a == q * b + r;
    ScaleSum(q, b, r, m);
    MulStrict(r, b, m);
    DivUnique(a * m, b * m, q, r * m);
  }

  lemma ScaleSum(q: nat, b: nat, r: nat, m: nat)
    ensures (q * b + r) * m == q * (b * m) + r * m
  {
    assert (q * b + r) * m == (q * b) * m + r * m;
  }

  lemma MulStrict(r: nat, b: nat, m: nat)
    requires r < b && m > 0
    ensures r * m < b * m
  {
  }

  /** floor(p / k) times the divisor is at most p times the multiplier, and one more exceeds it. */
  lemma ScaledFloor(p: nat, eps: Epsilon, m: nat, n: nat)
    requires m > 0
    ensures Scaled(p, eps, m, n) * (eps.num * m) <= p * (n * eps.den) < (Scaled(p, eps, m, n) + 1) * (eps.num * m)
  {
    var x, d := p * n * eps.den, eps.num * m;
    assert x == p * (n * eps.den);
    assert x == (x / d) * d + x % d;
  }

  /** Scaling keeps the order of prices. */
  lemma ScaledMonotone(p1: nat, p2: nat, eps: Epsilon, m: nat, n: nat)
    requires m > 0 && p1 <= p2
    ensures Scaled(p1, eps, m, n) <= Scaled(p2, eps, m, n)
  {
    MulMonotone(p2, p1, n * eps.den);
    assert p1 * n * eps.den == p1 * (n * eps.den);
    assert p2 * n * eps.den == p2 * (n * eps.den);
    DivMonotone(p1 * n * eps.den, p2 * n * eps.den, eps.num * m);
  }

  /** The largest price scales to floor(n * den / num). */
  lemma ScaledMax(eps: Epsilon, m: nat, n: nat)
    requires m > 0
    ensures Scaled(m, eps, m, n) == (n * eps.den) / eps.num
  {
    assert m * n * eps.den == (n * eps.den) * m;
    DivCancel(n * eps.den, eps.num, m);
  }

  /** floor(n * den / num) >= n, since den > num. */
  lemma ScaledMaxAtLeastCount(eps: Epsilon, n: nat)
    ensures (n * eps.den) / eps.num >= n
  {
    MulMonotone(eps.den, eps.num, n);
    DivMonotone(n * eps.num, n * eps.den, eps.num);
    DivUnique(n * eps.num, eps.num, n, 0);
  }

  /** After one rescaling the largest price is floor(n * den / num), which is at least n. */
  lemma RescaledMax(prices: seq<nat>, eps: Epsilon)
    requires |prices| > 0 && MaxPrice(prices) > 0
    ensures MaxPrice(Rescale(prices, eps)) == (|prices| * eps.den) / eps.num >= |prices|
  {
    var m, n := MaxPrice(prices), |prices|;
    var r := Rescale(prices, eps);
    var i :| 0 <= i < n && prices[i] == m;
    ScaledMax(eps, m, n);
    forall j | 0 <= j < n ensures r[j] <= r[i] {
      ScaledMonotone(prices[j], m, eps, m, n);
    }
    ScaledMaxAtLeastCount(eps, n);
  }

  /** A price at most f = floor(n * den / num) scales with k from f to itself. */
  lemma ScaledFixed(q: nat, eps: Epsilon, n: nat, f: nat)
    requires f == (n * eps.den) / eps.num > 0 && q <= f
    ensures Scaled(q, eps, f, n) == q
  {
    var big := n * eps.den;
    var rem := big % eps.num;
    assert big == f * eps.num + rem;
    MulMonotone(f, q, rem);
    MulMonotone(eps.num - 1, rem, f);
    assert q * big == q * (f * eps.num + rem) == q * (eps.num * f) + q * rem;
    assert q * n * eps.den == q * big;
    DivUnique(q * big, eps.num * f, q, q * rem);
  }

  /**
    A second rescaling leaves the rescaled prices as they are (in exact
    arithmetic): a second run works on the same prices as the first and
    returns the same result.
   */
  lemma RescaleTwice(prices: seq<nat>, eps: Epsilon)
    requires |prices| > 0 && MaxPrice(prices) > 0
    ensures MaxPrice(Rescale(prices, eps)) > 0
    ensures Rescale(Rescale(prices, eps), eps) == Rescale(prices, eps)
  {
    var n, q := |prices|, Rescale(prices, eps);
    RescaledMax(prices, eps);
    var f := MaxPrice(q);
    forall i | 0 <= i < n ensures Scaled(q[i], eps, f, n) == q[i] {
      ScaledFixed(q[i], eps, n, f);
    }
  }

  // ------------------------------------------------------------ the approximation bound

  /** Scaled prices times the divisor never exceed the prices times the multiplier. */
  lemma {:induction false} DotScaledBelow(c: seq<Bit>, p: seq<nat>, q: seq<nat>, mul: nat, div: nat)
    requires |c| <= |p| == |q|
    requires forall i :: 0 <= i < |p| ==> q[i] * div <= p[i] * mul
    ensures Dot(c, q) * div <= Dot(c, p) * mul
  {
    if |c| > 0 {
      var l := |c| - 1;
      var c' := c[..l];
      DotScaledBelow(c', p, q, mul, div);
      var x, y := Dot(c', q), Dot(c', p);
      if c[l] == 1 {
        assert (x + q[l]) * div == x * div + q[l] * div;
        assert (y + p[l]) * mul == y * mul + p[l] * mul;
      }
    }
  }

  /** Flooring loses less than one divisor per selected thing. */
  lemma {:induction false} DotScaledAbove(c: seq<Bit>, p: seq<nat>, q: seq<nat>, mul: nat, div: nat)
    requires |c| <= |p| == |q|
    requires forall i :: 0 <= i < |p| ==> p[i] * mul < (q[i] + 1) * div
    ensures Dot(c, p) * mul <= (Dot(c, q) + |c|) * div
  {
    if |c| > 0 {
      var l := |c| - 1;
      var c' := c[..l];
      DotScaledAbove(c', p, q, mul, div);
      var x, y := Dot(c', q), Dot(c', p);
      assert (x + l) * div + div == (x + l + 1) * div;
      if c[l] == 1 {
        assert (y + p[l]) * mul == y * mul + p[l] * mul;
        assert (x + q[l] + l + 1) * div == (x + l) * div + (q[l] + 1) * div;
      } else {
        MulMonotone(x + l + 1, x + l, div);
      }
    }
  }

  /**
    Running the exact solver on prices scaled with k = eps * m / n loses at
    most eps * m: den * price >= den * optimum - num * m, whatever m > 0 is.
   */
  lemma ScaledBound(prices: seq<nat>, weights: seq<nat>, capacity: nat, eps: Epsilon, m: nat)
    requires |prices| == |weights| > 0 && m > 0
    ensures eps.den * Dot(DpConfig(RescaleBy(prices, eps, m), weights, capacity), prices)
            >= eps.den * OptPrice(prices, weights, |prices|, capacity) - eps.num * m
  {
    var n := |prices|;
    var q := RescaleBy(prices, eps, m);
    var s := DpConfig(q, weights, capacity);
    var mul, div := n * eps.den, eps.num * m;
    forall i | 0 <= i < n ensures q[i] * div <= prices[i] * mul < (q[i] + 1) * div {
      ScaledFloor(prices[i], eps, m, n);
    }
    DotScaledBelow(s, prices, q, mul, div);
    var o := OptConfig(prices, weights, n, capacity);
    OptConfigIsOptimal(prices, weights, n, capacity);
    OptPriceIsUpperBound(q, weights, o, capacity);
    DotScaledAbove(o, prices, q, mul, div);
    BoundArithmetic(Dot(o, prices), Dot(s, prices), Dot(o, q), Dot(s, q), n, eps, m);
  }

  /**
    The last step of the bound: opt * mul <= (oq + n) * div, oq <= sq and
    sq * div <= price * mul give den * price >= den * opt - num * m.
   */
  lemma BoundArithmetic(opt: int, price: int, oq: int, sq: int, n: nat, eps: Epsilon, m: nat)
    requires n > 0 && oq <= sq
    requires opt * (n * eps.den) <= (oq + n) * (eps.num * m)
    requires sq * (eps.num * m) <= price * (n * eps.den)
    ensures eps.den * price >= eps.den * opt - eps.num * m
  {
    var mul, div := n * eps.den, eps.num * m;
    MulMonotone(sq + n, oq + n, div);
    assert (sq + n) * div == sq * div + n * div;
    assert opt * mul <= price * mul + n * div;
    assert opt * mul == n * (opt * eps.den);
    assert price * mul + n * div == n * (price * eps.den + eps.num * m);
    CancelPositive(price * eps.den + eps.num * m, opt * eps.den, n);
  }

  /**
    The solver as written keeps the (1 - eps) promise when a thing of the
    largest price fits into the knapsack on its own.
   */
  lemma FptasWithinEpsilonWhenMaxFits(prices: seq<nat>, weights: seq<nat>, capacity: nat, eps: Epsilon)
    requires |prices| == |weights| > 0 && MaxPrice(prices) > 0
    requires exists i :: 0 <= i < |prices| && prices[i] == MaxPrice(prices) && weights[i] <= capacity
    ensures eps.den * Dot(FptasConfig(prices, weights, capacity, eps), prices)
            >= (eps.den - eps.num) * OptPrice(prices, weights, |prices|, capacity)
  {
    var i :| 0 <= i < |prices| && prices[i] == MaxPrice(prices) && weights[i] <= capacity;
    AloneFits(prices, weights, capacity, i);
    ScaledBound(prices, weights, capacity, eps, MaxPrice(prices));
    EpsilonArithmetic(Dot(FptasConfig(prices, weights, capacity, eps), prices),
                      OptPrice(prices, weights, |prices|, capacity), MaxPrice(prices), eps);
  }

  /** den * price >= den * opt - num * m together with m <= opt gives price >= (1 - eps) * opt. */
  lemma EpsilonArithmetic(price: int, opt: int, m: int, eps: Epsilon)
    requires eps.den * price >= eps.den * opt - eps.num * m && m <= opt
    ensures eps.den * price >= (eps.den - eps.num) * opt
  {
    MulMonotone(opt, m, eps.num);
    assert (eps.den - eps.num) * opt == eps.den * opt - eps.num * opt;
  }

  /** A thing that fits on its own bounds the optimum from below. */
  lemma AloneFits(prices: seq<nat>, weights: seq<nat>, capacity: nat, i: nat)
    requires i < |prices| == |weights| && weights[i] <= capacity
    ensures prices[i] <= OptPrice(prices, weights, |prices|, capacity)
  {
    var n := |prices|;
    var single := Zeros(n)[i := 1];
    assert [] + Zeros(n) == Zeros(n);
    DotZerosTail([], n, prices);
    DotZerosTail([], n, weights);
    DotSetOne(Zeros(n), prices, i);
    DotSetOne(Zeros(n), weights, i);
    OptPriceIsUpperBound(prices, weights, single, capacity);
  }

  /**
    The promise fails as written: with prices [100, 1], weights [100, 1],
    capacity 1 and eps = 1/2, the rescaled prices are [4, 0], the exact
    solver returns [0, 0] and the price is 0, while the optimum is 1, so the
    relative error is 1 > eps.
   */
  lemma FptasBoundFails()
    ensures var prices, weights, eps := [100, 1], [100, 1], Fraction(1, 2);
            MaxPrice(prices) == 100 && Rescale(prices, eps) == [4, 0]
            && FptasConfig(prices, weights, 1, eps) == [0, 0]
            && OptPrice(prices, weights, 2, 1) == 1
            && eps.den * Dot(FptasConfig(prices, weights, 1, eps), prices)
               < (eps.den - eps.num) * OptPrice(prices, weights, 2, 1)
  {
    var prices, weights, eps: Epsilon := [100, 1], [100, 1], Fraction(1, 2);
    assert MaxPrice(prices[1..]) == 1;
    assert Rescale(prices, eps)[0] == 4;
    assert Rescale(prices, eps)[1] == 0;
    var q := Rescale(prices, eps);
    assert q == [4, 0];
    assert OptPrice(q, weights, 1, 1) == 0;
    assert OptPrice(q, weights, 2, 1) == 0;
    var inf := Infinity(weights);
    assert Sum(weights) == 101 by {
      assert SumFrom(weights, 2) == 0;
      assert SumFrom(weights, 1) == 1;
    }
    assert MinWeight(q, weights, inf, 0, 0) == 0;
    assert MinWeight(q, weights, inf, 1, 0) == 0;
    assert MinWeight(q, weights, inf, 2, 0) == 0;
    assert Reconstruct(q, weights, inf, 1, 0) == [0];
    assert Reconstruct(q, weights, inf, 2, 0) == [0, 0];
    var c := FptasConfig(prices, weights, 1, eps);
    assert c == [0, 0];
    assert Dot(c, prices) == 0 by {
      assert c[..1] == [0];
      assert c[..1][..0] == [];
    }
    assert OptPrice(prices, weights, 1, 1) == 0;
    assert OptPrice(prices, weights, 1, 0) == 0;
    assert OptPrice(prices, weights, 2, 1) == 1;
  }

  // ------------------------------------------------------------ the corrected scaling

  /** The largest price of a thing that fits into the knapsack on its own, 0 if none does. */
  function MaxFittingPrice(prices: seq<nat>, weights: seq<nat>, capacity: nat): (m: nat)
    requires |prices| == |weights|
    ensures forall i :: 0 <= i < |prices| && weights[i] <= capacity ==> prices[i] <= m
    ensures m == 0 || exists i :: 0 <= i < |prices| && weights[i] <= capacity && prices[i] == m
  {
    if |prices| == 0 then 0
    else
      var rest := MaxFittingPrice(prices[1..], weights[1..], capacity);
      assert forall i :: 1 <= i < |prices| ==> prices[i] == prices[1..][i - 1] && weights[i] == weights[1..][i - 1];
      if weights[0] <= capacity && prices[0] >= rest then prices[0] else rest
  }

  /**
    The evidently intended scheme: k from the largest price of a thing that
    fits (things that cannot fit are never chosen anyway); when no thing
    with a positive price fits, the optimum is 0 and the exact solver runs
    on the prices as they are.
   */
  function CorrectedFptasConfig(prices: seq<nat>, weights: seq<nat>, capacity: nat, eps: Epsilon): (c: seq<Bit>)
    requires |prices| == |weights|
    ensures Feasible(c, weights, capacity)
  {
    var m := MaxFittingPrice(prices, weights, capacity);
    if m == 0 then DpConfig(prices, weights, capacity)
    else DpConfig(RescaleBy(prices, eps, m), weights, capacity)
  }

  /** The corrected scheme keeps the promise: price >= (1 - eps) * optimum, on every instance. */
  lemma CorrectedFptasWithinEpsilon(prices: seq<nat>, weights: seq<nat>, capacity: nat, eps: Epsilon)
    requires |prices| == |weights|
    ensures eps.den * Dot(CorrectedFptasConfig(prices, weights, capacity, eps), prices)
            >= (eps.den - eps.num) * OptPrice(prices, weights, |prices|, capacity)
  {
    var m := MaxFittingPrice(prices, weights, capacity);
    var opt := OptPrice(prices, weights, |prices|, capacity);
    var c := CorrectedFptasConfig(prices, weights, capacity, eps);
    if m == 0 {
      assert Dot(c, prices) == opt;
      MulMonotone(eps.den, eps.den - eps.num, opt);
    } else {
      var i :| 0 <= i < |prices| && weights[i] <= capacity && prices[i] == m;
      AloneFits(prices, weights, capacity, i);
      ScaledBound(prices, weights, capacity, eps, m);
      EpsilonArithmetic(Dot(c, prices), opt, m, eps);
    }
  }

  // ------------------------------------------------------------ the solver object

  class Fptas {
    /** The shared instance; its things' prices are overwritten by `run`. */
    const instance: Instance
    const epsilon: Epsilon
    /** `@orig_prices`, captured before any rescaling. */
    const origPrices: seq<nat>

    ghost predicate Valid()
      reads this, instance
    {
      instance.Valid() && |origPrices| == |instance.prices|
    }

    constructor (inst: Instance, eps: Epsilon)
      requires inst.Valid()
      ensures Valid()
      ensures instance == inst && epsilon == eps && origPrices == inst.prices
    {
      instance := inst;
      epsilon := eps;
      origPrices := inst.prices;
    }

    /** `modify_prices_for_epsilon!`: every price becomes floor(price / k), in place. */
    method ModifyPricesForEpsilon()
      requires Valid() && |instance.prices| > 0 && MaxPrice(instance.prices) > 0
      modifies instance
      ensures Valid()
      ensures instance.prices == Rescale(old(instance.prices), epsilon)
    {
      ghost var orig := instance.prices;
      var m := MaxPrice(instance.prices);
      var n := |instance.prices|;
      var i := 0;
      while i < n
        invariant 0 <= i <= n == |instance.prices| == |orig|
        invariant forall j :: 0 <= j < i ==> instance.prices[j] == Scaled(orig[j], epsilon, m, n)
        invariant forall j :: i <= j < n ==> instance.prices[j] == orig[j]
      {
        instance.prices := instance.prices[i := Scaled(instance.prices[i], epsilon, m, n)];
        i := i + 1;
      }
    }

    /**
      `run`: rescale, solve exactly, price with the original prices. The
      configuration is the exact solver's on the rescaled prices and fits;
      a second run starts from the prices the first one left behind.
     */
    method Run() returns (price: nat, cfg: seq<Bit>)
      requires Valid() && |instance.prices| > 0 && MaxPrice(instance.prices) > 0
      modifies instance
      ensures Valid()
      ensures instance.prices == Rescale(old(instance.prices), epsilon)
      ensures cfg == FptasConfig(old(instance.prices), instance.weights, instance.capacity, epsilon)
      ensures Feasible(cfg, instance.weights, instance.capacity)
      ensures price == Dot(cfg, origPrices)
    {
      ModifyPricesForEpsilon();
      var dp := new DynamicProgramming(instance);
      var _, c := dp.Run();
      price := NormalPrice(c, origPrices);
      cfg := c;
    }
  }
}
