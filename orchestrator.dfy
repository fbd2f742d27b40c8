/**
  The solver that drives the solving methods: it runs every selected method
  over every instance of every dataset, records the price, configuration and
  execution times of each run, adds relative errors against an exact method
  and computes per-dataset, per-method averages.
 */
module Orchestrator {
  import opened Knapsack
  import opened Instances
  import Datasets
  import BranchAndBoundSolver
  import DynamicProgrammingSolver
  import HeuristicSolver
  import FptasSolver

  // ------------------------------------------------------------ selection

  datatype Method = BranchAndBound | DynamicProgramming | Heuristic | Fptas

  /** The parsed command-line options the solver looks at. */
  datatype Options = Options(branchAndBound: bool, dynamicProgramming: bool, heuristic: bool, fptas: bool,
                             epsilon: FptasSolver.Epsilon)

  predicate Selected(opts: Options, m: Method)
  {
    match m
    case BranchAndBound => opts.branchAndBound
    case DynamicProgramming => opts.dynamicProgramming
    case Heuristic => opts.heuristic
    case Fptas => opts.fptas
  }

  /** The fixed position of each method in the solver's table of methods. */
  function Rank(m: Method): nat
  {
    match m
    case BranchAndBound => 0
    case DynamicProgramming => 1
    case Heuristic => 2
    case Fptas => 3
  }

  /** The methods that run: exactly the selected ones, each once, in table order. */
  function Methods(opts: Options): (ms: seq<Method>)
    ensures forall m :: m in ms <==> Selected(opts, m)
    ensures forall t :: 0 <= t < |ms| ==> Selected(opts, ms[t])
    ensures forall t :: 0 <= t < |ms| - 1 ==> Rank(ms[t]) < Rank(ms[t + 1])
  {
    (if opts.branchAndBound then [BranchAndBound] else [])
    + (if opts.dynamicProgramming then [DynamicProgramming] else [])
    + (if opts.heuristic then [Heuristic] else [])
    + (if opts.fptas then [Fptas] else [])
  }

  predicate Exact(m: Method)
  {
    m == BranchAndBound || m == DynamicProgramming
  }

  /** The exact method relative errors are measured against: branch and bound if selected, else dynamic programming. */
  function Baseline(opts: Options): (b: Option<Method>)
    ensures b.Some? <==> opts.branchAndBound || opts.dynamicProgramming
    ensures b.Some? ==> Selected(opts, b.value) && Exact(b.value)
    ensures b.Some? && opts.branchAndBound ==> b.value == BranchAndBound
  {
    if opts.branchAndBound then Some(BranchAndBound)
    else if opts.dynamicProgramming then Some(DynamicProgramming)
    else None
  }

  // ------------------------------------------------------------ floating point

  /** The values a relative error or its average can take: a finite number, negative infinity, or not-a-number. */
  datatype Float = Finite(value: real) | NegInfinity | NaN

  /** Floating-point addition restricted to the values above. */
  function Plus(a: Float, b: Float): Float
  {
    if a.NaN? || b.NaN? then NaN
    else if a.NegInfinity? || b.NegInfinity? then NegInfinity
    else Finite(a.value + b.value)
  }

  /** Floating-point division by a positive count. */
  function DivideBy(a: Float, n: nat): Float
    requires n > 0
  {
    if a.Finite? then Finite(a.value / n as real) else a
  }

  /** `relative_error`: (opt - apx) / opt in floating point. */
  function RelativeError(opt: nat, apx: nat): (e: Float)
    ensures opt > 0 ==> e.Finite? && e.value * opt as real == opt as real - apx as real
    ensures opt == 0 ==> (e.NaN? <==> apx == 0) && (e.NegInfinity? <==> apx > 0)
  {
    if opt > 0 then Finite((opt as real - apx as real) / opt as real)
    else if apx == 0 then NaN
    else NegInfinity
  }

  /** A price at most the optimum has a relative error in [0, 1], and 0 exactly at the optimum. */
  lemma RelativeErrorBounds(opt: nat, apx: nat)
    requires 0 < opt && apx <= opt
    ensures RelativeError(opt, apx).Finite?
    ensures 0.0 <= RelativeError(opt, apx).value <= 1.0
    ensures RelativeError(opt, apx).value == 0.0 <==> apx == opt
  {
    var o := opt as real;
    DivBounds(o - apx as real, o, 0.0, 1.0);
  }

  /** Dividing by a positive number keeps a value between the correspondingly scaled bounds. */
  lemma DivBounds(s: real, n: real, lo: real, hi: real)
    requires n > 0.0 && n * lo <= s <= n * hi
    ensures lo <= s / n <= hi
  {
  }

  // ------------------------------------------------------------ results

  /** Times the measurement loop reports for one run. */
  datatype Timing = Timing(cpuTime: real, wallClockTime: real)

  /** The result hash of one method on one instance. */
  datatype Measurement = Measurement(price: nat, config: seq<Bit>, cpuTime: real, wallClockTime: real,
                                     relativeError: Option<Float>)

  /** The results of one method on the instances of one dataset, in instance order. */
  datatype MethodResults = MethodResults(solver: Method, results: seq<Measurement>)

  /** The results of all methods on one dataset, keyed by the dataset id. */
  datatype DatasetResults = DatasetResults(id: nat, methods: seq<MethodResults>)

  /** The instances the source can solve with method `m` without failing. */
  predicate Solvable(m: Method, d: InstanceData)
  {
    match m
    case BranchAndBound => |d.things| > 0
    case DynamicProgramming => true
    case Heuristic => HeuristicSolver.Comparable(PricesOf(d.things), WeightsOf(d.things))
    case Fptas => |d.things| > 0 && FptasSolver.MaxPrice(PricesOf(d.things)) > 0
  }

  predicate DatasetSolvable(opts: Options, d: Datasets.DatasetData)
  {
    forall i, m :: 0 <= i < |d.instances| && Selected(opts, m) ==> Solvable(m, d.instances[i])
  }

  /** What each method's run produces on an instance: a fitting configuration with its price, as that method defines it. */
  predicate Solves(m: Method, eps: FptasSolver.Epsilon, d: InstanceData, price: nat, config: seq<Bit>)
    requires Solvable(m, d)
  {
    var p, w, c := PricesOf(d.things), WeightsOf(d.things), d.capacity;
    Feasible(config, w, c) && price == Dot(config, p) &&
    match m
    case BranchAndBound => price == OptPrice(p, w, |p|, c)
    case DynamicProgramming => config == DynamicProgrammingSolver.DpConfig(p, w, c)
    case Heuristic =>
      config == HeuristicSolver.Greedy(w, c, HeuristicSolver.SortByRatio(p, w, HeuristicSolver.Indices(|p|)), Zeros(|p|), 0)
    case Fptas => config == FptasSolver.FptasConfig(p, w, c, eps)
  }

  /** A measurement of method `m` on instance `d`, timed as `time` reports. */
  predicate Measured(m: Method, eps: FptasSolver.Epsilon, d: InstanceData, time: Timing, r: Measurement)
    requires Solvable(m, d)
  {
    Solves(m, eps, d, r.price, r.config) && r.cpuTime == time.cpuTime && r.wallClockTime == time.wallClockTime
  }

  /** The results of one method on dataset number `j`; relative errors are not looked at. */
  predicate MethodOutcome(opts: Options, d: Datasets.DatasetData, j: nat, clock: (nat, Method, nat) -> Timing,
                          mr: MethodResults)
    requires DatasetSolvable(opts, d) && Selected(opts, mr.solver)
  {
    |mr.results| == |d.instances| &&
    forall i :: 0 <= i < |d.instances| ==>
      Measured(mr.solver, opts.epsilon, d.instances[i], clock(j, mr.solver, i), mr.results[i])
  }

  /** The entry for dataset number `j`: its id and, per selected method in table order, that method's results. */
  predicate EntryOutcome(opts: Options, d: Datasets.DatasetData, j: nat, clock: (nat, Method, nat) -> Timing,
                         e: DatasetResults)
    requires DatasetSolvable(opts, d)
  {
    var ms := Methods(opts);
    e.id == d.id && |e.methods| == |ms| &&
    forall t :: 0 <= t < |ms| ==> e.methods[t].solver == ms[t] && MethodOutcome(opts, d, j, clock, e.methods[t])
  }

  predicate NoErrors(e: DatasetResults)
  {
    forall t, i :: 0 <= t < |e.methods| && 0 <= i < |e.methods[t].results| ==> e.methods[t].results[i].relativeError.None?
  }

  // ------------------------------------------------------------ running

  /** One `o.run` on a fresh solver object for the instance. */
  method SolveInstance(m: Method, eps: FptasSolver.Epsilon, d: InstanceData) returns (price: nat, config: seq<Bit>)
    requires Solvable(m, d)
    ensures Solves(m, eps, d, price, config)
  {
    var inst := new Instance(d);
    match m {
      case BranchAndBound =>
        var o := new BranchAndBoundSolver.BranchAndBound(inst);
        price, config := o.Run();
      case DynamicProgramming =>
        var o := new DynamicProgrammingSolver.DynamicProgramming(inst);
        price, config := o.Run();
      case Heuristic =>
        var o := new HeuristicSolver.HeuristicPriceToWeight(inst);
        DotZerosTail([], |inst.weights|, inst.weights);
        assert [] + Zeros(|inst.weights|) == Zeros(|inst.weights|);
        price, config := o.Run();
      case Fptas =>
        var o := new FptasSolver.Fptas(inst, eps);
        price, config := o.Run();
    }
  }

  /** The innermost loop of `run`: method `m` on every instance of dataset number `j`, in order. */
  method SolveAll(m: Method, eps: FptasSolver.Epsilon, d: Datasets.DatasetData, j: nat,
                  clock: (nat, Method, nat) -> Timing)
    returns (rs: seq<Measurement>)
    requires forall i :: 0 <= i < |d.instances| ==> Solvable(m, d.instances[i])
    ensures |rs| == |d.instances|
    ensures forall i :: 0 <= i < |d.instances| ==> Measured(m, eps, d.instances[i], clock(j, m, i), rs[i])
    ensures forall i :: 0 <= i < |rs| ==> rs[i].relativeError.None?
  {
    rs := [];
    for i := 0 to |d.instances|
      invariant |rs| == i
      invariant forall k :: 0 <= k < i ==> Measured(m, eps, d.instances[k], clock(j, m, k), rs[k])
      invariant forall k :: 0 <= k < i ==> rs[k].relativeError.None?
    {
      var price, config := SolveInstance(m, eps, d.instances[i]);
      var time := clock(j, m, i);
      var r := Measurement(price, config, time.cpuTime, time.wallClockTime, None);
      assert Measured(m, eps, d.instances[i], time, r);
      rs := rs + [r];
    }
  }

  /** The inner loops of `run` for dataset number `j`: every selected method over every instance. */
  method SolveDataset(opts: Options, d: Datasets.DatasetData, j: nat, clock: (nat, Method, nat) -> Timing)
    returns (entry: DatasetResults)
    requires DatasetSolvable(opts, d)
    ensures EntryOutcome(opts, d, j, clock, entry) && NoErrors(entry)
  {
    var ms := Methods(opts);
    var mrs: seq<MethodResults> := [];
    for t := 0 to |ms|
      invariant |mrs| == t
      invariant forall u :: 0 <= u < t ==> mrs[u].solver == ms[u] && MethodOutcome(opts, d, j, clock, mrs[u])
      invariant forall u, i :: 0 <= u < t && 0 <= i < |mrs[u].results| ==> mrs[u].results[i].relativeError.None?
    {
      var m := ms[t];
      var rs := SolveAll(m, opts.epsilon, d, j, clock);
      assert MethodOutcome(opts, d, j, clock, MethodResults(m, rs));
      mrs := mrs + [MethodResults(m, rs)];
    }
    entry := DatasetResults(d.id, mrs);
  }

  function Ids(datasets: seq<Datasets.DatasetData>): (ids: seq<nat>)
    ensures |ids| == |datasets| && forall k :: 0 <= k < |datasets| ==> ids[k] == datasets[k].id
  {
    seq(|datasets|, k requires 0 <= k < |datasets| => datasets[k].id)
  }

  function IdsOf(results: seq<DatasetResults>): (ids: seq<nat>)
    ensures |ids| == |results| && forall k :: 0 <= k < |results| ==> ids[k] == results[k].id
  {
    seq(|results|, k requires 0 <= k < |results| => results[k].id)
  }

  predicate Distinct(s: seq<nat>)
  {
    forall a, b :: 0 <= a < b < |s| ==> s[a] != s[b]
  }

  /** The keys of a hash filled in the order of `ids`: each id once, at its first occurrence. */
  function Dedup(ids: seq<nat>): (d: seq<nat>)
    ensures forall x :: x in d <==> x in ids
    ensures Distinct(d)
  {
    if |ids| == 0 then []
    else
      var d := Dedup(ids[..|ids| - 1]);
      var x := ids[|ids| - 1];
      assert forall y :: y in ids <==> y in ids[..|ids| - 1] || y == x by {
        assert ids == ids[..|ids| - 1] + [x];
      }
      if x in d then d else d + [x]
  }

  /** `res[id] = entry` on an insertion-ordered hash: replace the entry with that id in place, or append. */
  function Put(results: seq<DatasetResults>, entry: DatasetResults): seq<DatasetResults>
  {
    if |results| == 0 then [entry]
    else if results[0].id == entry.id then [entry] + results[1..]
    else [results[0]] + Put(results[1..], entry)
  }

  /** With distinct ids, an existing id's entry is replaced and nothing else changes. */
  lemma {:induction false} PutReplaces(results: seq<DatasetResults>, entry: DatasetResults, k: nat)
    requires Distinct(IdsOf(results)) && k < |results| && results[k].id == entry.id
    ensures Put(results, entry) == results[k := entry]
  {
    if k > 0 {
      assert IdsOf(results)[0] != IdsOf(results)[k];
      var rest := results[1..];
      assert Distinct(IdsOf(rest)) by {
        forall a, b | 0 <= a < b < |rest| ensures IdsOf(rest)[a] != IdsOf(rest)[b] {
          assert IdsOf(results)[a + 1] != IdsOf(results)[b + 1];
        }
      }
      PutReplaces(rest, entry, k - 1);
      assert [results[0]] + rest[k - 1 := entry] == results[k := entry];
    } else {
      assert [entry] + results[1..] == results[0 := entry];
    }
  }

  /** A new id is appended at the end. */
  lemma {:induction false} PutAppends(results: seq<DatasetResults>, entry: DatasetResults)
    requires entry.id !in IdsOf(results)
    ensures Put(results, entry) == results + [entry]
  {
    if |results| > 0 {
      var rest := results[1..];
      assert results[0].id == IdsOf(results)[0];
      assert entry.id !in IdsOf(rest) by {
        forall a | 0 <= a < |rest| ensures IdsOf(rest)[a] != entry.id {
          assert IdsOf(rest)[a] == IdsOf(results)[a + 1];
        }
      }
      PutAppends(rest, entry);
      assert [results[0]] + (rest + [entry]) == results + [entry];
    }
  }

  /** Dataset `j` is the last one in `datasets[..n]` with its id. */
  predicate LatestBefore(datasets: seq<Datasets.DatasetData>, n: nat, j: nat)
    requires j < n <= |datasets|
  {
    forall l :: j < l < n ==> datasets[l].id != datasets[j].id
  }

  predicate AllSolvable(opts: Options, datasets: seq<Datasets.DatasetData>)
  {
    forall j :: 0 <= j < |datasets| ==> DatasetSolvable(opts, datasets[j])
  }

  /** Entry `e` is what dataset `j` yields, before relative errors are added. */
  ghost predicate EntryFrom(opts: Options, datasets: seq<Datasets.DatasetData>, clock: (nat, Method, nat) -> Timing,
                            j: nat, e: DatasetResults)
  {
    AllSolvable(opts, datasets) && j < |datasets| && datasets[j].id == e.id && EntryOutcome(opts, datasets[j], j, clock, e) && NoErrors(e)
  }

  /** Entry `e` holds what the last dataset with its id yields. */
  ghost predicate FromLatest(opts: Options, datasets: seq<Datasets.DatasetData>, clock: (nat, Method, nat) -> Timing,
                             e: DatasetResults)
    requires AllSolvable(opts, datasets)
  {
    exists j :: 0 <= j < |datasets| && datasets[j].id == e.id && LatestBefore(datasets, |datasets|, j)
                && EntryOutcome(opts, datasets[j], j, clock, e)
  }

  /**
    The keys of `run`'s hash after the first `n` datasets: each distinct id
    once, key `k` last written by dataset `source[k]`.
   */
  ghost predicate IdTracks(datasets: seq<Datasets.DatasetData>, n: nat, ids: seq<nat>, source: seq<nat>)
    requires n <= |datasets|
  {
    |source| == |ids| && ids == Dedup(Ids(datasets[..n])) &&
    forall k :: 0 <= k < |ids| ==>
      source[k] < n && datasets[source[k]].id == ids[k] && LatestBefore(datasets, n, source[k])
  }

  /** Writing an id already present keeps its position and moves its source to dataset `n`. */
  lemma IdTracksReplace(datasets: seq<Datasets.DatasetData>, n: nat, ids: seq<nat>, source: seq<nat>, k: nat)
    requires n < |datasets| && IdTracks(datasets, n, ids, source)
    requires k < |ids| && ids[k] == datasets[n].id
    ensures IdTracks(datasets, n + 1, ids, source[k := n])
  {
    var all := Ids(datasets[..n + 1]);
    assert all[..n] == Ids(datasets[..n]) && all[n] == datasets[n].id;
    var source' := source[k := n];
    forall k' | 0 <= k' < |ids|
      ensures source'[k'] < n + 1 && datasets[source'[k']].id == ids[k'] && LatestBefore(datasets, n + 1, source'[k'])
    {
      if k' != k {
        assert ids[k'] != ids[k];
      }
    }
  }

  /** Writing a new id appends it, with dataset `n` as its source. */
  lemma IdTracksAppend(datasets: seq<Datasets.DatasetData>, n: nat, ids: seq<nat>, source: seq<nat>)
    requires n < |datasets| && IdTracks(datasets, n, ids, source)
    requires datasets[n].id !in ids
    ensures IdTracks(datasets, n + 1, ids + [datasets[n].id], source + [n])
  {
    var all := Ids(datasets[..n + 1]);
    assert all[..n] == Ids(datasets[..n]) && all[n] == datasets[n].id;
    forall k' | 0 <= k' < |ids| ensures LatestBefore(datasets, n + 1, source[k']) {
      assert ids[k'] != datasets[n].id;
    }
  }

  /**
    `run`: one entry per distinct dataset id, in order of first appearance;
    a later dataset with the same id overwrites the entry in place. Each
    entry holds what every selected method yields on that dataset, and the
    relative errors are those `add_relative_error` computes.
   */
  method Run(opts: Options, datasets: seq<Datasets.DatasetData>, clock: (nat, Method, nat) -> Timing)
    returns (results: seq<DatasetResults>)
    requires AllSolvable(opts, datasets)
    ensures IdsOf(results) == Dedup(Ids(datasets))
    ensures forall k :: 0 <= k < |results| ==> FromLatest(opts, datasets, clock, results[k])
    ensures Baseline(opts).None? ==> forall k :: 0 <= k < |results| ==> NoErrors(results[k])
    ensures Baseline(opts).Some? ==> forall k :: 0 <= k < |results| ==> ErrorsAdded(opts, results[k])
  {
    var raw: seq<DatasetResults> := [];
    ghost var source: seq<nat> := [];
    ghost var ok := (j: nat, e: DatasetResults) => EntryFrom(opts, datasets, clock, j, e);
    for j := 0 to |datasets|
      invariant IdTracks(datasets, j, IdsOf(raw), source)
      invariant forall k :: 0 <= k < |raw| ==> ok(source[k], raw[k])
    {
      var entry := SolveDataset(opts, datasets[j], j, clock);
      assert ok(j, entry);
      source := Store(ok, datasets, j, raw, source, entry);
      raw := Put(raw, entry);
    }
    assert datasets[..|datasets|] == datasets;
    FinishRun(opts, datasets, clock, raw, source);
    results := AddRelativeError(opts, raw);
  }

  /**
    `res[dataset.id] = entry` keeps the hash's keys and sources in step, and
    keeps any property `ok` that every stored entry has with its source.
   */
  lemma Store(ok: (nat, DatasetResults) -> bool, datasets: seq<Datasets.DatasetData>, j: nat,
              raw: seq<DatasetResults>, source: seq<nat>, entry: DatasetResults)
    returns (source': seq<nat>)
    requires j < |datasets| && IdTracks(datasets, j, IdsOf(raw), source)
    requires forall k :: 0 <= k < |raw| ==> ok(source[k], raw[k])
    requires ok(j, entry) && entry.id == datasets[j].id
    ensures IdTracks(datasets, j + 1, IdsOf(Put(raw, entry)), source')
    ensures forall k :: 0 <= k < |Put(raw, entry)| ==> ok(source'[k], Put(raw, entry)[k])
  {
    if entry.id in IdsOf(raw) {
      var k :| 0 <= k < |raw| && IdsOf(raw)[k] == entry.id;
      PutReplaces(raw, entry, k);
      IdTracksReplace(datasets, j, IdsOf(raw), source, k);
      assert IdsOf(raw[k := entry]) == IdsOf(raw);
      source' := source[k := j];
      forall k' | 0 <= k' < |raw| ensures ok(source'[k'], raw[k := entry][k']) {
        if k' != k {
          assert ok(source[k'], raw[k']);
        }
      }
    } else {
      PutAppends(raw, entry);
      IdTracksAppend(datasets, j, IdsOf(raw), source);
      assert IdsOf(raw + [entry]) == IdsOf(raw) + [entry.id];
      source' := source + [j];
      forall k' | 0 <= k' < |raw| + 1 ensures ok(source'[k'], (raw + [entry])[k']) {
        if k' < |raw| {
          assert ok(source[k'], raw[k']);
        }
      }
    }
  }

  /** After the loop: `add_relative_error` applies, and its result is what `run` promises. */
  lemma FinishRun(opts: Options, datasets: seq<Datasets.DatasetData>, clock: (nat, Method, nat) -> Timing,
                  raw: seq<DatasetResults>, source: seq<nat>)
    requires AllSolvable(opts, datasets) && IdTracks(datasets, |datasets|, IdsOf(raw), source)
    requires forall k :: 0 <= k < |raw| ==> EntryFrom(opts, datasets, clock, source[k], raw[k])
    ensures Baseline(opts).Some? ==> forall k :: 0 <= k < |raw| ==> HasBaseline(Baseline(opts).value, raw[k])
    ensures IdsOf(AddRelativeError(opts, raw)) == Dedup(Ids(datasets))
    ensures forall k :: 0 <= k < |AddRelativeError(opts, raw)| ==>
              FromLatest(opts, datasets, clock, AddRelativeError(opts, raw)[k])
    ensures Baseline(opts).None? ==> forall k :: 0 <= k < |raw| ==> NoErrors(AddRelativeError(opts, raw)[k])
    ensures Baseline(opts).Some? ==> forall k :: 0 <= k < |raw| ==> ErrorsAdded(opts, AddRelativeError(opts, raw)[k])
  {
    assert datasets[..|datasets|] == datasets;
    if Baseline(opts).Some? {
      forall k | 0 <= k < |raw| ensures HasBaseline(Baseline(opts).value, raw[k]) {
        EntryHasBaseline(opts, datasets[source[k]], source[k], clock, raw[k]);
      }
    }
    var results := AddRelativeError(opts, raw);
    AddRelativeErrorSpec(opts, raw);
    assert IdsOf(results) == IdsOf(raw);
    forall k | 0 <= k < |results| ensures FromLatest(opts, datasets, clock, results[k]) {
      EntryKept(opts, datasets, clock, raw[k], source[k], results[k]);
    }
  }

  /** A stored entry, once its relative errors are added, still comes from its source dataset. */
  lemma EntryKept(opts: Options, datasets: seq<Datasets.DatasetData>, clock: (nat, Method, nat) -> Timing,
                  e: DatasetResults, j: nat, e': DatasetResults)
    requires EntryFrom(opts, datasets, clock, j, e) && SameMeasurements(e, e')
    requires LatestBefore(datasets, |datasets|, j)
    ensures FromLatest(opts, datasets, clock, e')
  {
    OutcomeKept(opts, datasets[j], j, clock, e, e');
    assert 0 <= j < |datasets| && datasets[j].id == e'.id && LatestBefore(datasets, |datasets|, j)
           && EntryOutcome(opts, datasets[j], j, clock, e');
  }

  // ------------------------------------------------------------ relative errors

  function MethodsOf(mrs: seq<MethodResults>): (ms: seq<Method>)
    ensures |ms| == |mrs| && forall t :: 0 <= t < |mrs| ==> ms[t] == mrs[t].solver
  {
    seq(|mrs|, t requires 0 <= t < |mrs| => mrs[t].solver)
  }

  /** The position of the first `m` in `ms`: a hash lookup by method. */
  function IndexOf(ms: seq<Method>, m: Method): (r: Option<nat>)
    ensures r.Some? ==> r.value < |ms| && ms[r.value] == m && forall u :: 0 <= u < r.value ==> ms[u] != m
    ensures r.None? ==> m !in ms
  {
    if |ms| == 0 then None
    else if ms[0] == m then Some(0)
    else match IndexOf(ms[1..], m)
      case None => None
      case Some(i) => Some(i + 1)
  }

  /** The entry holds the baseline's results, at least as many as any method's. */
  predicate HasBaseline(b: Method, e: DatasetResults)
  {
    var pos := IndexOf(MethodsOf(e.methods), b);
    pos.Some? && forall t :: 0 <= t < |e.methods| ==> |e.methods[t].results| <= |e.methods[pos.value].results|
  }

  /** Every result of the entry carries its relative error against the baseline's price on the same instance. */
  predicate ErrorsAdded(opts: Options, e: DatasetResults)
    requires Baseline(opts).Some?
  {
    var pos := IndexOf(MethodsOf(e.methods), Baseline(opts).value);
    pos.Some? &&
    forall t, i :: 0 <= t < |e.methods| && 0 <= i < |e.methods[t].results| ==>
      i < |e.methods[pos.value].results| &&
      e.methods[t].results[i].relativeError
        == Some(RelativeError(e.methods[pos.value].results[i].price, e.methods[t].results[i].price))
  }

  function WithError(r: Measurement, opt: nat): Measurement
  {
    r.(relativeError := Some(RelativeError(opt, r.price)))
  }

  function WithErrors(e: DatasetResults, base: seq<Measurement>): DatasetResults
    requires forall t :: 0 <= t < |e.methods| ==> |e.methods[t].results| <= |base|
  {
    DatasetResults(e.id, seq(|e.methods|, t requires 0 <= t < |e.methods| =>
      MethodResults(e.methods[t].solver, seq(|e.methods[t].results|, i requires 0 <= i < |e.methods[t].results| =>
        WithError(e.methods[t].results[i], base[i].price)))))
  }

  /** `add_relative_error`: unchanged unless an exact method ran, otherwise every result gets its relative error. */
  function AddRelativeError(opts: Options, results: seq<DatasetResults>): seq<DatasetResults>
    requires Baseline(opts).Some? ==> forall k :: 0 <= k < |results| ==> HasBaseline(Baseline(opts).value, results[k])
  {
    match Baseline(opts)
    case None => results
    case Some(b) =>
      seq(|results|, k requires 0 <= k < |results| =>
        assert HasBaseline(b, results[k]);
        WithErrors(results[k], results[k].methods[IndexOf(MethodsOf(results[k].methods), b).value].results))
  }

  /** Two entries agree on everything but the relative errors. */
  predicate SameMeasurements(a: DatasetResults, b: DatasetResults)
  {
    a.id == b.id && MethodsOf(a.methods) == MethodsOf(b.methods) &&
    forall t :: 0 <= t < |a.methods| ==>
      |a.methods[t].results| == |b.methods[t].results| &&
      forall i :: 0 <= i < |a.methods[t].results| ==>
        a.methods[t].results[i].(relativeError := None) == b.methods[t].results[i].(relativeError := None)
  }

  /** `add_relative_error` changes only relative errors, and adds them as `ErrorsAdded` says. */
  lemma AddRelativeErrorSpec(opts: Options, results: seq<DatasetResults>)
    requires Baseline(opts).Some? ==> forall k :: 0 <= k < |results| ==> HasBaseline(Baseline(opts).value, results[k])
    ensures Baseline(opts).None? ==> AddRelativeError(opts, results) == results
    ensures |AddRelativeError(opts, results)| == |results|
    ensures forall k :: 0 <= k < |results| ==> SameMeasurements(results[k], AddRelativeError(opts, results)[k])
    ensures Baseline(opts).Some? ==>
              forall k :: 0 <= k < |results| ==> ErrorsAdded(opts, AddRelativeError(opts, results)[k])
  {
    var out := AddRelativeError(opts, results);
    forall k | 0 <= k < |results|
      ensures SameMeasurements(results[k], out[k])
      ensures Baseline(opts).Some? ==> ErrorsAdded(opts, out[k])
    {
      var e := results[k];
      if Baseline(opts).Some? {
        var pos := IndexOf(MethodsOf(e.methods), Baseline(opts).value).value;
        assert out[k] == WithErrors(e, e.methods[pos].results);
        WithErrorsSame(e, e.methods[pos].results);
        WithErrorsAdded(opts, e, pos);
      } else {
        SameMeasurementsReflexive(e);
      }
    }
  }

  lemma SameMeasurementsReflexive(e: DatasetResults)
    ensures SameMeasurements(e, e)
  {
  }

  /** Adding errors against any long enough baseline keeps the measurements. */
  lemma WithErrorsSame(e: DatasetResults, base: seq<Measurement>)
    requires forall t :: 0 <= t < |e.methods| ==> |e.methods[t].results| <= |base|
    ensures SameMeasurements(e, WithErrors(e, base))
  {
    var out := WithErrors(e, base);
    assert MethodsOf(e.methods) == MethodsOf(out.methods);
  }

  /** Adding errors against the baseline's own results gives each result its error against the baseline. */
  lemma WithErrorsAdded(opts: Options, e: DatasetResults, pos: nat)
    requires Baseline(opts).Some? && HasBaseline(Baseline(opts).value, e)
    requires IndexOf(MethodsOf(e.methods), Baseline(opts).value) == Some(pos)
    ensures ErrorsAdded(opts, WithErrors(e, e.methods[pos].results))
  {
    var out := WithErrors(e, e.methods[pos].results);
    assert MethodsOf(e.methods) == MethodsOf(out.methods);
    assert forall t, i :: 0 <= t < |e.methods| && 0 <= i < |e.methods[t].results| ==>
      out.methods[t].results[i] == WithError(e.methods[t].results[i], e.methods[pos].results[i].price);
  }

  /** The observable outcome of a run survives adding relative errors. */
  lemma OutcomeKept(opts: Options, d: Datasets.DatasetData, j: nat, clock: (nat, Method, nat) -> Timing,
                    a: DatasetResults, b: DatasetResults)
    requires DatasetSolvable(opts, d) && EntryOutcome(opts, d, j, clock, a) && SameMeasurements(a, b)
    ensures EntryOutcome(opts, d, j, clock, b)
  {
    var ms := Methods(opts);
    forall t | 0 <= t < |ms|
      ensures b.methods[t].solver == ms[t] && MethodOutcome(opts, d, j, clock, b.methods[t])
    {
      assert MethodsOf(a.methods)[t] == MethodsOf(b.methods)[t];
      forall i | 0 <= i < |d.instances|
        ensures Measured(b.methods[t].solver, opts.epsilon, d.instances[i], clock(j, b.methods[t].solver, i),
                         b.methods[t].results[i])
      {
        var x, y := a.methods[t].results[i], b.methods[t].results[i];
        assert x.(relativeError := None) == y.(relativeError := None);
        assert x.price == y.price && x.config == y.config;
        assert x.cpuTime == y.cpuTime && x.wallClockTime == y.wallClockTime;
      }
    }
  }

  /** A run's entries hold the baseline's results, so `add_relative_error` is defined on them. */
  lemma EntryHasBaseline(opts: Options, d: Datasets.DatasetData, j: nat, clock: (nat, Method, nat) -> Timing,
                         e: DatasetResults)
    requires DatasetSolvable(opts, d) && EntryOutcome(opts, d, j, clock, e) && Baseline(opts).Some?
    ensures HasBaseline(Baseline(opts).value, e)
  {
    var ms := Methods(opts);
    assert MethodsOf(e.methods) == ms;
  }

  /**
    The relative errors of a run against the optimum: the baseline is
    exact, so every method's error lies in [0, 1] (not-a-number when the
    optimum is 0), and the exact methods' errors are 0.
   */
  lemma RelativeErrorsBounded(opts: Options, d: Datasets.DatasetData, j: nat, clock: (nat, Method, nat) -> Timing,
                              e: DatasetResults)
    requires DatasetSolvable(opts, d) && EntryOutcome(opts, d, j, clock, e)
    requires Baseline(opts).Some? && ErrorsAdded(opts, e)
    ensures forall t, i :: 0 <= t < |e.methods| && 0 <= i < |d.instances| ==>
              ErrorWithinUnit(e.methods[t].results[i].relativeError, InstanceOpt(d.instances[i]))
    ensures forall t, i :: (0 <= t < |e.methods| && 0 <= i < |d.instances| && Exact(e.methods[t].solver)
                            && InstanceOpt(d.instances[i]) > 0) ==>
              e.methods[t].results[i].relativeError == Some(Finite(0.0))
  {
    var ms := Methods(opts);
    var pos := IndexOf(MethodsOf(e.methods), Baseline(opts).value).value;
    forall t, i | 0 <= t < |e.methods| && 0 <= i < |d.instances|
      ensures ErrorWithinUnit(e.methods[t].results[i].relativeError, InstanceOpt(d.instances[i]))
      ensures Exact(e.methods[t].solver) && InstanceOpt(d.instances[i]) > 0 ==>
                e.methods[t].results[i].relativeError == Some(Finite(0.0))
    {
      var opt := InstanceOpt(d.instances[i]);
      ExactIsOptimal(opts, d, j, clock, e, pos, i);
      ExactIsOptimal(opts, d, j, clock, e, t, i);
      var apx := e.methods[t].results[i].price;
      if opt > 0 {
        RelativeErrorBounds(opt, apx);
      }
    }
  }

  /** The optimal price of an instance. */
  function InstanceOpt(d: InstanceData): nat
  {
    OptPrice(PricesOf(d.things), WeightsOf(d.things), |d.things|, d.capacity)
  }

  predicate ErrorWithinUnit(err: Option<Float>, opt: nat)
  {
    if opt == 0 then err == Some(NaN)
    else err.Some? && err.value.Finite? && 0.0 <= err.value.value <= 1.0
  }

  /** Every method's price is at most the optimum, and the exact methods' price is the optimum. */
  lemma ExactIsOptimal(opts: Options, d: Datasets.DatasetData, j: nat, clock: (nat, Method, nat) -> Timing,
                       e: DatasetResults, t: nat, i: nat)
    requires DatasetSolvable(opts, d) && EntryOutcome(opts, d, j, clock, e)
    requires t < |e.methods| && i < |d.instances|
    ensures e.methods[t].results[i].price <= InstanceOpt(d.instances[i])
    ensures Exact(e.methods[t].solver) ==> e.methods[t].results[i].price == InstanceOpt(d.instances[i])
  {
    var inst := d.instances[i];
    var r := e.methods[t].results[i];
    var p, w := PricesOf(inst.things), WeightsOf(inst.things);
    assert Methods(opts)[t] in Methods(opts);
    assert Solves(e.methods[t].solver, opts.epsilon, inst, r.price, r.config);
    OptPriceIsUpperBound(p, w, r.config, inst.capacity);
  }

  // ------------------------------------------------------------ statistics

  /** The averages of one method on one dataset. */
  datatype Averages = Averages(avgPrice: real, avgCpuTime: real, avgWallClockTime: real,
                               avgRelativeError: Option<Float>)

  datatype MethodStats = MethodStats(solver: Method, averages: seq<Averages>)

  datatype DatasetStats = DatasetStats(id: nat, methods: seq<MethodStats>)

  /** Left-to-right sum, as `reduce(:+)`. */
  function SumReals(xs: seq<real>): real
  {
    if |xs| == 0 then 0.0 else SumReals(xs[..|xs| - 1]) + xs[|xs| - 1]
  }

  function Mean(xs: seq<real>): real
    requires |xs| > 0
  {
    SumReals(xs) / |xs| as real
  }

  /** Left-to-right floating-point sum of a non-empty list, as `reduce(:+)`. */
  function SumFloats(xs: seq<Float>): Float
    requires |xs| > 0
  {
    if |xs| == 1 then xs[0] else Plus(SumFloats(xs[..|xs| - 1]), xs[|xs| - 1])
  }

  function MeanFloat(xs: seq<Float>): Float
    requires |xs| > 0
  {
    DivideBy(SumFloats(xs), |xs|)
  }

  /** A mean lies between the bounds of its values. */
  lemma MeanBounds(xs: seq<real>, lo: real, hi: real)
    requires |xs| > 0 && forall i :: 0 <= i < |xs| ==> lo <= xs[i] <= hi
    ensures lo <= Mean(xs) <= hi
  {
    SumBounds(xs, lo, hi);
    DivBounds(SumReals(xs), |xs| as real, lo, hi);
  }

  lemma {:induction false} SumBounds(xs: seq<real>, lo: real, hi: real)
    requires forall i :: 0 <= i < |xs| ==> lo <= xs[i] <= hi
    ensures |xs| as real * lo <= SumReals(xs) <= |xs| as real * hi
  {
    if |xs| > 0 {
      SumBounds(xs[..|xs| - 1], lo, hi);
    }
  }

  /** The values of a list of finite floats. */
  function Values(xs: seq<Float>): (vs: seq<real>)
    requires forall i :: 0 <= i < |xs| ==> xs[i].Finite?
    ensures |vs| == |xs| && forall i :: 0 <= i < |xs| ==> vs[i] == xs[i].value
  {
    seq(|xs|, i requires 0 <= i < |xs| && xs[i].Finite? => xs[i].value)
  }

  /** On finite values the floating-point mean is the mean of the reals. */
  lemma {:induction false} FiniteSum(xs: seq<Float>)
    requires |xs| > 0 && forall i :: 0 <= i < |xs| ==> xs[i].Finite?
    ensures SumFloats(xs) == Finite(SumReals(Values(xs)))
  {
    var n := |xs|;
    if n == 1 {
      assert Values(xs)[..0] == [];
    } else {
      FiniteSum(xs[..n - 1]);
      assert Values(xs)[..n - 1] == Values(xs[..n - 1]);
    }
  }

  /** One not-a-number value makes the mean not-a-number. */
  lemma {:induction false} NaNAbsorbs(xs: seq<Float>, k: nat)
    requires k < |xs| && xs[k].NaN?
    ensures SumFloats(xs).NaN? && MeanFloat(xs).NaN?
  {
    if k < |xs| - 1 {
      NaNAbsorbs(xs[..|xs| - 1], k);
    }
  }

  /** Results whose averages the source can compute: at least one, and all or none with a relative error. */
  predicate Averageable(res: seq<Measurement>)
  {
    |res| > 0 && (res[0].relativeError.Some? ==> forall i :: 0 <= i < |res| ==> res[i].relativeError.Some?)
  }

  /** `averages`: a one-element list holding the mean of every key of the first result except the configuration. */
  function AveragesOf(res: seq<Measurement>): (a: seq<Averages>)
    requires Averageable(res)
    ensures |a| == 1
    ensures a[0].avgPrice == Mean(seq(|res|, i requires 0 <= i < |res| => res[i].price as real))
    ensures a[0].avgCpuTime == Mean(seq(|res|, i requires 0 <= i < |res| => res[i].cpuTime))
    ensures a[0].avgWallClockTime == Mean(seq(|res|, i requires 0 <= i < |res| => res[i].wallClockTime))
    ensures a[0].avgRelativeError.Some? <==> res[0].relativeError.Some?
    ensures a[0].avgRelativeError.Some? ==>
              a[0].avgRelativeError.value ==
                MeanFloat(seq(|res|, i requires 0 <= i < |res| && res[i].relativeError.Some? => res[i].relativeError.value))
  {
    var prices := seq(|res|, i requires 0 <= i < |res| => res[i].price as real);
    var cpu := seq(|res|, i requires 0 <= i < |res| => res[i].cpuTime);
    var wall := seq(|res|, i requires 0 <= i < |res| => res[i].wallClockTime);
    var err :=
      if res[0].relativeError.Some? then
        Some(MeanFloat(seq(|res|, i requires 0 <= i < |res| && res[i].relativeError.Some? => res[i].relativeError.value)))
      else None;
    [Averages(Mean(prices), Mean(cpu), Mean(wall), err)]
  }

  /** The average price lies between the lowest and the highest price. */
  lemma AveragePriceBounds(res: seq<Measurement>, lo: nat, hi: nat)
    requires Averageable(res) && forall i :: 0 <= i < |res| ==> lo <= res[i].price <= hi
    ensures lo as real <= AveragesOf(res)[0].avgPrice <= hi as real
  {
    MeanBounds(seq(|res|, i requires 0 <= i < |res| => res[i].price as real), lo as real, hi as real);
  }

  /** Relative errors all in [0, 1] average to a value in [0, 1]; one not-a-number makes the average not-a-number. */
  lemma AverageErrorBounds(res: seq<Measurement>)
    requires Averageable(res) && res[0].relativeError.Some?
    ensures (forall i :: 0 <= i < |res| ==> res[i].relativeError.value.Finite?
                                            && 0.0 <= res[i].relativeError.value.value <= 1.0) ==>
              var avg := AveragesOf(res)[0].avgRelativeError.value;
              avg.Finite? && 0.0 <= avg.value <= 1.0
    ensures (exists i :: 0 <= i < |res| && res[i].relativeError.value.NaN?) ==>
              AveragesOf(res)[0].avgRelativeError.value.NaN?
  {
    var errs := seq(|res|, i requires 0 <= i < |res| && res[i].relativeError.Some? => res[i].relativeError.value);
    if forall i :: 0 <= i < |res| ==> res[i].relativeError.value.Finite?
                                      && 0.0 <= res[i].relativeError.value.value <= 1.0 {
      FiniteSum(errs);
      MeanBounds(Values(errs), 0.0, 1.0);
    }
    if exists i :: 0 <= i < |res| && res[i].relativeError.value.NaN? {
      var i :| 0 <= i < |res| && res[i].relativeError.value.NaN?;
      NaNAbsorbs(errs, i);
    }
  }

  /**
    `stats` is defined on what `run` returns when every dataset has an
    instance (as a parsed dataset has): each method has results, and either
    none or all of them carry a relative error.
   */
  lemma RunResultsAverageable(opts: Options, datasets: seq<Datasets.DatasetData>, clock: (nat, Method, nat) -> Timing,
                              results: seq<DatasetResults>)
    requires AllSolvable(opts, datasets)
    requires forall j :: 0 <= j < |datasets| ==> |datasets[j].instances| > 0
    requires forall k :: 0 <= k < |results| ==> FromLatest(opts, datasets, clock, results[k])
    requires Baseline(opts).None? ==> forall k :: 0 <= k < |results| ==> NoErrors(results[k])
    requires Baseline(opts).Some? ==> forall k :: 0 <= k < |results| ==> ErrorsAdded(opts, results[k])
    ensures forall k, t :: 0 <= k < |results| && 0 <= t < |results[k].methods| ==>
              Averageable(results[k].methods[t].results)
  {
    forall k, t | 0 <= k < |results| && 0 <= t < |results[k].methods|
      ensures Averageable(results[k].methods[t].results)
    {
      EntryAverageable(opts, datasets, clock, results[k], t);
    }
  }

  lemma EntryAverageable(opts: Options, datasets: seq<Datasets.DatasetData>, clock: (nat, Method, nat) -> Timing,
                         e: DatasetResults, t: nat)
    requires AllSolvable(opts, datasets)
    requires forall j :: 0 <= j < |datasets| ==> |datasets[j].instances| > 0
    requires FromLatest(opts, datasets, clock, e) && t < |e.methods|
    requires Baseline(opts).None? ==> NoErrors(e)
    requires Baseline(opts).Some? ==> ErrorsAdded(opts, e)
    ensures Averageable(e.methods[t].results)
  {
    var j :| 0 <= j < |datasets| && datasets[j].id == e.id && LatestBefore(datasets, |datasets|, j)
             && EntryOutcome(opts, datasets[j], j, clock, e);
    assert |e.methods[t].results| == |datasets[j].instances|;
  }

  /** `stats`: per dataset id and per method, in the order of `results`, the averages of that method's results. */
  function Stats(results: seq<DatasetResults>): (s: seq<DatasetStats>)
    requires forall k, t :: 0 <= k < |results| && 0 <= t < |results[k].methods| ==>
               Averageable(results[k].methods[t].results)
    ensures |s| == |results|
    ensures forall k :: 0 <= k < |results| ==>
              s[k].id == results[k].id && |s[k].methods| == |results[k].methods| &&
              forall t :: 0 <= t < |results[k].methods| ==>
                s[k].methods[t] == MethodStats(results[k].methods[t].solver, AveragesOf(results[k].methods[t].results))
  {
    seq(|results|, k requires 0 <= k < |results| =>
      var e := results[k];
      DatasetStats(e.id, seq(|e.methods|, t requires 0 <= t < |e.methods| =>
        MethodStats(e.methods[t].solver, AveragesOf(e.methods[t].results)))))
  }
}
