# knapsack_solver in Dafny

A model of the core of `knapsack_solver`, a Ruby tool that solves sets of
0/1 knapsack instances with four methods and compares them.

- An **instance** line holds a knapsack capacity, then a (price, weight) pair per thing.
- A **dataset** is a line with its id, followed by one instance per line.
- The four solving methods:
  - **branch and bound**: an exact depth-first search, cut off by the
    remaining-price bound;
  - **dynamic programming**: exact; a table of minimum weights indexed by
    thing count and price;
  - **heuristic**: greedy by price/weight ratio;
  - **FPTAS**: the dynamic program on prices scaled down according to an epsilon.
- The **solver** runs each selected method on every instance of every
  dataset. It records the price, configuration and times of each run. When
  an exact method was selected, it adds the relative error against that
  method. It also reduces the results to per-dataset, per-method averages.

Module layout, one file each:

| module | file | source |
|---|---|---|
| `Knapsack` | `knapsack.dfy` | the shared reference definitions (see below) |
| `Instances` | `instances.dfy` | `instance.rb` |
| `Datasets` | `datasets.dfy` | `dataset.rb` |
| `BranchAndBoundSolver` | `branch_and_bound.dfy` | `solving_methods/branch_and_bound.rb` |
| `DynamicProgrammingSolver` | `dynamic_programming.dfy` | `solving_methods/dynamic_programming.rb` |
| `HeuristicSolver` | `heuristic.dfy` | `solving_methods/heuristic_price_weight.rb` |
| `FptasSolver` | `fptas.dfy` | `solving_methods/fptas.rb` |
| `Orchestrator` | `orchestrator.dfy` | `solver.rb` |

`Knapsack` holds the definitions every solver is measured against:
- `Dot`: the price or weight of a configuration;
- `Feasible`: the configuration fits the capacity;
- `OptPrice` / `OptConfig`: the optimum, by the textbook include/exclude
  recursion.

Parsing is pure and becomes functions over strings and lines. The solvers
are objects whose methods update fields, so each is a `class`:

- Branch and bound keeps its configuration in an `array` and recurses with
  `decreases`.
- Dynamic programming fills a two-dimensional `array` table with `for`
  loops, then walks back through it.
- The heuristic keeps its configuration in an `array` and scans it with a
  `while` loop.
- FPTAS rewrites the `prices` field of the `Instances.Instance` object it was
  given before running the dynamic program.

`Orchestrator.Run` is a method with loops over datasets, methods and
instances. It builds the result table the way the nested
`each_with_object` hashes do.

What is proved:

- **Parsing.** Parsing is characterised completely: every error message it
  can raise and when, and success exactly when every word is a
  non-negative integer and the word count is odd. Parsing inverts
  printing, and printing inverts parsing up to the spacing of a line.
- **Exact methods.**
  - Branch and bound returns a fitting configuration whose price is
    `OptPrice`.
  - The dynamic program returns a fitting configuration whose price is
    `OptPrice`. Its table entries are the minimum weights, and the
    walk-back rebuilds a configuration with exactly the best price.
- **Heuristic.** It marks exactly the things in the ratio order before the
  first thing that overflows. Its result fits, never beats `OptPrice`, and
  running it again changes nothing. The sort it uses is a permutation and
  is ordered by ratio.
- **FPTAS.**
  - Its result always fits.
  - Its price is within `(1 - epsilon)` of the optimum when the
    most expensive thing fits alone.
  - Rescaling twice equals rescaling once.
  - Without that condition the bound fails: see "## Findings".
- **Solver.**
  - The method table holds exactly the selected methods, in the table's
    fixed order.
  - The result table has one entry per distinct dataset id, in order of
    first appearance. Each entry holds the results of the last dataset
    with that id.
  - Every measurement is what that method produces on that instance.
  - Relative errors are bounded by 0 and 1, and they are 0 for the exact method.
  - Averages lie within the range of the values averaged, and a NaN
    relative error makes the average NaN.

Design points:

- **Shared instance object.** The Ruby solver hands the same `Instance`
  object to every method. Only FPTAS changes it, and FPTAS is last in the
  method table. So every method sees the prices as parsed, and the model
  gives each solve a fresh object built from the parsed data.
- **Repeated runs.** The source's timing loop calls `run` on the same
  solver object again and again. The model runs it once. For branch and
  bound, dynamic programming and the heuristic, a repeated run returns the
  same result:
  - branch and bound: `Run`'s final `ensures` shows a second run returns
    the same configuration;
  - dynamic programming: it rebuilds its table from scratch;
  - heuristic: `HeuristicSolver.GreedyIdempotent`.

  For FPTAS the single run is exact only in exact arithmetic, where
  `FptasSolver.RescaleTwice` shows the rescaled prices are a fixed point.
  With floating-point rounding a repeated run can rescale differently (see
  "## Left out").
- **Times are an input.** The model takes the times as a parameter
  `clock(dataset index, method, instance index)`.
- **Floating point.** Ruby floats become reals, plus the two special values
  the solver can produce: NaN and negative infinity (`Orchestrator.Float`).

## Model

| member | source | states |
|---|---|---|
| Knapsack.OptPriceIsUpperBound | lib/knapsack_solver/solving_methods/branch_and_bound.rb:13-19 | no fitting configuration of the first things is worth more than `OptPrice`, the optimum the exact methods must reach |
| Knapsack.OptConfigIsOptimal | lib/knapsack_solver/solving_methods/branch_and_bound.rb:13-19 | the reference configuration fits and its price is `OptPrice`, so the optimum is attained |
| Knapsack.OptimalByDominance | lib/knapsack_solver/solving_methods/branch_and_bound.rb:13-19 | a fitting configuration at least as good as every fitting configuration has price exactly `OptPrice` |
| Instances.Split | lib/knapsack_solver/instance.rb:34 | `String#split` yields only non-empty words free of whitespace |
| Instances.SplitJoin | lib/knapsack_solver/instance.rb:34 | splitting the space-joined words gives back exactly those words |
| Instances.ConvertWords | lib/knapsack_solver/instance.rb:34-38 | on success, one number per word, each the word's `Integer` value; otherwise the not-only-integers or negative-number error |
| Instances.ConvertWordsSucceeds | lib/knapsack_solver/instance.rb:34-38 | conversion succeeds exactly when every word is a non-negative integer |
| Instances.ConvertWordsFirstBad | lib/knapsack_solver/instance.rb:34-43 | the error raised is the one for the first bad word: negative, or not an integer (the rescued `ArgumentError`) |
| Instances.SplitLine | lib/knapsack_solver/instance.rb:33-44 | a successful split has an odd count; conversion errors win over the missing-capacity and missing-pairs errors |
| Instances.PairsToThings | lib/knapsack_solver/instance.rb:22-24 | the numbers after the capacity are taken two at a time as price and weight, and thing `i` gets index `i` |
| Instances.Parse | lib/knapsack_solver/instance.rb:17-26 | on success, the capacity is the first number and thing `i` is the `i`-th (price, weight) pair with index `i`; a failure carries the split error, one of the four instance messages |
| Instances.ParseErrors | lib/knapsack_solver/instance.rb:36-43 | no words gives missing capacity; with every word good, parsing succeeds exactly when the count is odd, and an even non-zero count gives missing pairs |
| Instances.ParseSucceeds | lib/knapsack_solver/instance.rb:39-40 | an odd number of good words always parses |
| Instances.ParseFirstBadWord | lib/knapsack_solver/instance.rb:34-43 | a bad word makes parsing fail with the error of the first bad word, before the count is looked at |
| Instances.SerializeParse | lib/knapsack_solver/instance.rb:17-26 | parsing the printed form of any instance whose things are indexed in order gives that instance back |
| Instances.ParseSerialize | lib/knapsack_solver/instance.rb:17-26 | for a line of canonical decimals that parses, printing the result gives back the line's words |
| Instances.ParseToDecimal | lib/knapsack_solver/instance.rb:35 | the decimal rendering of a number is canonical and `Integer` reads it back as that number |
| Instances.Instance.constructor | lib/knapsack_solver/instance.rb:8-11 | the object holds the capacity and the things' prices and weights, in thing order |
| Datasets.ParseId | lib/knapsack_solver/dataset.rb:30-40 | a parsed id comes from a first line holding exactly one word |
| Datasets.IdErrors | lib/knapsack_solver/dataset.rb:31-39 | an empty stream gives missing ID; a first line without exactly one word gives not-an-ID; an unreadable word gives not-an-integer; and a negative one gives negative ID |
| Datasets.ParseInstances | lib/knapsack_solver/dataset.rb:21 | on success, one instance per remaining line, each the parse of that line |
| Datasets.ParseInstancesSucceeds | lib/knapsack_solver/dataset.rb:21 | the instance lines parse exactly when each of them does |
| Datasets.ParseInstancesFirstFailure | lib/knapsack_solver/dataset.rb:21 | the error raised is the one of the first line that fails |
| Datasets.Parse | lib/knapsack_solver/dataset.rb:19-24 | on success, the id is the first line's and instance `i` is the parse of line `i + 1`, with at least one instance |
| Datasets.InstanceErrors | lib/knapsack_solver/dataset.rb:21-22 | with a good id, no further lines gives missing instances; otherwise the first failing line's error is raised |
| Datasets.InstanceLineFails | lib/knapsack_solver/dataset.rb:21 | a failing instance line after good ones makes the dataset fail with that line's error |
| Datasets.NoInstanceErrorIsIdError | lib/knapsack_solver/dataset.rb:20-22 | instance lines fail only with instance errors, never with an id error |
| Datasets.ParseSucceeds | lib/knapsack_solver/dataset.rb:19-40 | a dataset parses exactly when the id line is good, there is at least one more line, and every further line parses |
| BranchAndBoundSolver.CoveredBySplit | lib/knapsack_solver/solving_methods/branch_and_bound.rb:26-31 | when both extensions of a prefix are covered by the best price, so is the prefix: the two recursive calls search the whole subtree |
| BranchAndBoundSolver.CoveredWhenComplete | lib/knapsack_solver/solving_methods/branch_and_bound.rb:43 | a complete configuration no better than the best price needs no further search |
| BranchAndBoundSolver.CoveredWhenOverweight | lib/knapsack_solver/solving_methods/branch_and_bound.rb:45 | once the prefix is over capacity, nothing below it fits, so the cut is safe |
| BranchAndBoundSolver.CoveredByBound | lib/knapsack_solver/solving_methods/branch_and_bound.rb:46-50 | if the prefix price plus all remaining prices cannot beat the best price, the cut is safe |
| BranchAndBoundSolver.CoveredMonotone | lib/knapsack_solver/solving_methods/branch_and_bound.rb:59-69 | coverage survives the rise of the best price |
| BranchAndBoundSolver.BranchAndBound.constructor | lib/knapsack_solver/solving_methods/branch_and_bound.rb:8-11 | a fresh configuration array, one cell per thing, with no best price yet |
| BranchAndBoundSolver.BranchAndBound.ConfigWeight | lib/knapsack_solver/solving_methods/branch_and_bound.rb:77-83 | the weight of the configuration's first `endIndex + 1` cells |
| BranchAndBoundSolver.BranchAndBound.ConfigPrice | lib/knapsack_solver/solving_methods/branch_and_bound.rb:91-97 | the price of the configuration's first `endIndex + 1` cells |
| BranchAndBoundSolver.BranchAndBound.PriceOfRemainingThings | lib/knapsack_solver/solving_methods/branch_and_bound.rb:104-109 | the total price of the things from `fromIndex` on |
| BranchAndBoundSolver.BranchAndBound.UpdateBestPrice | lib/knapsack_solver/solving_methods/branch_and_bound.rb:59-69 | the first candidate, or a fitting strictly better one, becomes the best price and configuration; otherwise nothing changes; a fitting best stays fitting |
| BranchAndBoundSolver.BranchAndBound.Stop | lib/knapsack_solver/solving_methods/branch_and_bound.rb:37-52 | first offers the prefix, padded with zeros, as the best configuration under `update_best_price`'s rule; stops exactly at the last thing, over capacity, or when the remaining prices cannot beat the best price; at a stop every completion of the prefix is covered by the best price |
| BranchAndBoundSolver.BranchAndBound.Solve | lib/knapsack_solver/solving_methods/branch_and_bound.rb:26-31 | the decided prefix is untouched, the best price only rises, and every completion of the prefix is covered by the best price |
| BranchAndBoundSolver.BranchAndBound.Branch | lib/knapsack_solver/solving_methods/branch_and_bound.rb:27-30 | fixes thing `index` to the given bit and covers every completion of the extended prefix |
| BranchAndBoundSolver.BranchAndBound.Run | lib/knapsack_solver/solving_methods/branch_and_bound.rb:16-19 | returns a fitting configuration with its price, and that price is `OptPrice`; a second run on the same object returns the same configuration |
| DynamicProgrammingSolver.MinWeightAtMostInf | lib/knapsack_solver/solving_methods/dynamic_programming.rb:52-56 | a table entry never exceeds the infinity value |
| DynamicProgrammingSolver.MinWeightColumnZero | lib/knapsack_solver/solving_methods/dynamic_programming.rb:32 | price 0 costs weight 0 in every row |
| DynamicProgrammingSolver.MinWeightIsLowerBound | lib/knapsack_solver/solving_methods/dynamic_programming.rb:52-56 | the entry for a configuration's price is at most that configuration's weight |
| DynamicProgrammingSolver.Reconstruct | lib/knapsack_solver/solving_methods/dynamic_programming.rb:67-86 | the walk back from a reachable entry decides one cell per thing |
| DynamicProgrammingSolver.ReconstructSound | lib/knapsack_solver/solving_methods/dynamic_programming.rb:78-86 | the configuration rebuilt from a reachable entry has exactly that price and the entry's weight |
| DynamicProgrammingSolver.WalkBackStep | lib/knapsack_solver/solving_methods/dynamic_programming.rb:78-86 | one step of the walk back picks a bit for the last thing and moves to a reachable entry of the row above that is lower by that thing's price |
| DynamicProgrammingSolver.DotOnes | lib/knapsack_solver/solving_methods/dynamic_programming.rb:101-105 | the price of the all-ones configuration is the sum of all prices, the table's last column |
| DynamicProgrammingSolver.DpBestIsOptimal | lib/knapsack_solver/solving_methods/dynamic_programming.rb:59-64 | the highest price whose entry fits the capacity is `OptPrice`, and its walk back fits |
| DynamicProgrammingSolver.OptPriceReachable | lib/knapsack_solver/solving_methods/dynamic_programming.rb:59-64 | the optimum's entry is below infinity, so the search for the best price finds it |
| DynamicProgrammingSolver.DpConfig | lib/knapsack_solver/solving_methods/dynamic_programming.rb:17-20 | the configuration the dynamic program returns fits and has price `OptPrice` |
| DynamicProgrammingSolver.DynamicProgramming.constructor | lib/knapsack_solver/solving_methods/dynamic_programming.rb:9-12 | the object reads the instance's capacity, prices and weights |
| DynamicProgrammingSolver.DynamicProgramming.AllThingsPrice | lib/knapsack_solver/solving_methods/dynamic_programming.rb:101-105 | the sum of all prices |
| DynamicProgrammingSolver.DynamicProgramming.AllThingsWeight | lib/knapsack_solver/solving_methods/dynamic_programming.rb:110-114 | the sum of all weights |
| DynamicProgrammingSolver.DynamicProgramming.Solve | lib/knapsack_solver/solving_methods/dynamic_programming.rb:25-36 | builds a fresh, fully filled table; the best price is `OptPrice` and the best configuration is the walk back |
| DynamicProgrammingSolver.DynamicProgramming.FillTable | lib/knapsack_solver/solving_methods/dynamic_programming.rb:39-45 | after the loops every entry is the minimum weight for its thing count and price |
| DynamicProgrammingSolver.DynamicProgramming.WeightOf | lib/knapsack_solver/solving_methods/dynamic_programming.rb:93-96 | an entry of a filled row, or infinity above the first row |
| DynamicProgrammingSolver.DynamicProgramming.MinimumWeight | lib/knapsack_solver/solving_methods/dynamic_programming.rb:52-56 | the minimum weight for the entry, from the row above |
| DynamicProgrammingSolver.DynamicProgramming.FindBestPrice | lib/knapsack_solver/solving_methods/dynamic_programming.rb:59-64 | the highest price whose last-row entry fits the capacity |
| DynamicProgrammingSolver.DynamicProgramming.ConfigurationVector | lib/knapsack_solver/solving_methods/dynamic_programming.rb:67-73 | a fresh configuration holding the walk back from the best price |
| DynamicProgrammingSolver.DynamicProgramming.DetermineConfigVariable | lib/knapsack_solver/solving_methods/dynamic_programming.rb:78-86 | decides cell `i - 1` as the walk back does, returns the price of the row above, and leaves the other cells alone |
| DynamicProgrammingSolver.DynamicProgramming.Run | lib/knapsack_solver/solving_methods/dynamic_programming.rb:17-20 | returns a fitting configuration whose price is `OptPrice` |
| HeuristicSolver.RatioGeTotal | lib/knapsack_solver/solving_methods/heuristic_price_weight.rb:13-15 | any two things are comparable by ratio |
| HeuristicSolver.RatioGeTransitive | lib/knapsack_solver/solving_methods/heuristic_price_weight.rb:13-15 | the ratio order is transitive through any thing whose ratio is defined |
| HeuristicSolver.SortByRatio | lib/knapsack_solver/solving_methods/heuristic_price_weight.rb:13-15 | the sort is a permutation of the things |
| HeuristicSolver.SortByRatioSorted | lib/knapsack_solver/solving_methods/heuristic_price_weight.rb:13-15 | the sorted things are in non-increasing order of price/weight |
| HeuristicSolver.GreedyMarksPrefix | lib/knapsack_solver/solving_methods/heuristic_price_weight.rb:30-33 | a thing ends up marked exactly when it was marked before or it comes, in ratio order, before the thing where the scan stops |
| HeuristicSolver.GreedyStopsOnOverflow | lib/knapsack_solver/solving_methods/heuristic_price_weight.rb:31 | the scan stops only at a thing that would overflow the capacity |
| HeuristicSolver.GreedyFits | lib/knapsack_solver/solving_methods/heuristic_price_weight.rb:30-33 | starting from a fitting configuration, the scan's result fits |
| HeuristicSolver.GreedyFixedPoint | lib/knapsack_solver/solving_methods/heuristic_price_weight.rb:30-33 | if the things before the stop are all marked and the stop overflows, the scan changes nothing |
| HeuristicSolver.GreedyIdempotent | lib/knapsack_solver/solving_methods/heuristic_price_weight.rb:21-24 | scanning a second time changes nothing |
| HeuristicSolver.FirstRun | lib/knapsack_solver/solving_methods/heuristic_price_weight.rb:12-33 | from the all-zero configuration, the result fits and marks exactly the ratio-order prefix before the first overflow |
| HeuristicSolver.HeuristicPriceToWeight.constructor | lib/knapsack_solver/solving_methods/heuristic_price_weight.rb:10-16 | an all-zero configuration, and the things sorted by ratio as a permutation in non-increasing ratio order |
| HeuristicSolver.HeuristicPriceToWeight.ConfigWeight | lib/knapsack_solver/solving_methods/heuristic_price_weight.rb:41-45 | the weight of the configuration |
| HeuristicSolver.HeuristicPriceToWeight.ConfigPrice | lib/knapsack_solver/solving_methods/heuristic_price_weight.rb:50-54 | the price of the configuration |
| HeuristicSolver.HeuristicPriceToWeight.Solve | lib/knapsack_solver/solving_methods/heuristic_price_weight.rb:29-36 | the configuration becomes the greedy scan of the sorted things; the best configuration is a copy of it, with its price |
| HeuristicSolver.HeuristicPriceToWeight.Run | lib/knapsack_solver/solving_methods/heuristic_price_weight.rb:21-24 | returns the greedy configuration and its price; starting from a fitting configuration it fits, is worth at most `OptPrice`, and a further run changes nothing |
| FptasSolver.MaxPrice | lib/knapsack_solver/solving_methods/fptas.rb:32 | the price of the most expensive thing: no price exceeds it, and some thing has it |
| FptasSolver.RescaleBy | lib/knapsack_solver/solving_methods/fptas.rb:33-34 | each price becomes `floor(price / k)` with `k = epsilon * m / n` |
| FptasSolver.ScaledFloor | lib/knapsack_solver/solving_methods/fptas.rb:34 | the scaled price is the floor of `price / k` |
| FptasSolver.ScaledMonotone | lib/knapsack_solver/solving_methods/fptas.rb:34 | scaling keeps the order of prices |
| FptasSolver.RescaledMax | lib/knapsack_solver/solving_methods/fptas.rb:32-34 | the largest rescaled price is `floor(n / epsilon)`, at least the number of things |
| FptasSolver.RescaleTwice | lib/knapsack_solver/solving_methods/fptas.rb:31-35 | rescaling the rescaled prices again changes nothing |
| FptasSolver.NormalPrice | lib/knapsack_solver/solving_methods/fptas.rb:41-45 | the price of the configuration under the original prices |
| FptasSolver.FptasConfig | lib/knapsack_solver/solving_methods/fptas.rb:20-25 | the configuration FPTAS returns fits the capacity |
| FptasSolver.ScaledBound | lib/knapsack_solver/solving_methods/fptas.rb:31-35 | the dynamic program on scaled prices loses at most `epsilon * m` of the optimum, measured in original prices |
| FptasSolver.AloneFits | lib/knapsack_solver/solving_methods/fptas.rb:32 | a thing that fits alone is worth at most the optimum |
| FptasSolver.FptasWithinEpsilonWhenMaxFits | lib/knapsack_solver/solving_methods/fptas.rb:10-35 | when a most expensive thing fits alone, the FPTAS price is at least `(1 - epsilon)` times the optimum |
| FptasSolver.FptasBoundFails | lib/knapsack_solver/solving_methods/fptas.rb:32-34 | a concrete instance whose FPTAS price is below `(1 - epsilon)` times the optimum |
| FptasSolver.MaxFittingPrice | lib/knapsack_solver/solving_methods/fptas.rb:32 | the highest price among things that fit alone, or 0 when none fits |
| FptasSolver.CorrectedFptasConfig | lib/knapsack_solver/solving_methods/fptas.rb:20-35 | the corrected scheme's configuration fits |
| FptasSolver.CorrectedFptasWithinEpsilon | lib/knapsack_solver/solving_methods/fptas.rb:10 | the corrected scheme's price is always at least `(1 - epsilon)` times the optimum |
| FptasSolver.Fptas.constructor | lib/knapsack_solver/solving_methods/fptas.rb:11-15 | holds the instance and epsilon and records the original prices |
| FptasSolver.Fptas.ModifyPricesForEpsilon | lib/knapsack_solver/solving_methods/fptas.rb:31-35 | the instance's prices are replaced, in place, by their rescaling |
| FptasSolver.Fptas.Run | lib/knapsack_solver/solving_methods/fptas.rb:20-25 | the instance's prices are rescaled, the configuration is the dynamic program's on them and fits, and the price is taken in original prices |
| Orchestrator.Methods | lib/knapsack_solver/solver.rb:21-27 | holds exactly the selected methods, in the table's fixed order |
| Orchestrator.Baseline | lib/knapsack_solver/solver.rb:80-81 | there is an exact method exactly when branch and bound or dynamic programming is selected; branch and bound is preferred |
| Orchestrator.RelativeError | lib/knapsack_solver/solver.rb:114-116 | `(opt - apx) / opt`; for optimum 0, NaN when the price is 0 too and negative infinity otherwise |
| Orchestrator.RelativeErrorBounds | lib/knapsack_solver/solver.rb:114-116 | for a positive optimum and a price not above it, the error lies in [0, 1] and is 0 exactly when the price is optimal |
| Orchestrator.SolveInstance | lib/knapsack_solver/solver.rb:39-41 | one run of the method's solver object on the instance yields what that method defines |
| Orchestrator.SolveAll | lib/knapsack_solver/solver.rb:38-42 | one measurement per instance, in instance order, each that method's result with the reported times, with no relative error yet |
| Orchestrator.SolveDataset | lib/knapsack_solver/solver.rb:37-43 | the dataset's entry: its id and, per selected method in table order, that method's measurements |
| Orchestrator.Dedup | lib/knapsack_solver/solver.rb:36-37 | the distinct ids, each once |
| Orchestrator.PutReplaces | lib/knapsack_solver/solver.rb:37 | storing under an id already present replaces that entry in place |
| Orchestrator.PutAppends | lib/knapsack_solver/solver.rb:37 | storing under a new id appends the entry |
| Orchestrator.Run | lib/knapsack_solver/solver.rb:35-46 | one entry per distinct dataset id in order of first appearance, each from the last dataset with that id; relative errors are present exactly when an exact method was selected |
| Orchestrator.AddRelativeErrorSpec | lib/knapsack_solver/solver.rb:79-90 | without an exact method, the results are returned unchanged; otherwise every measurement keeps its price, configuration and times, and gains the error against the exact method's price on the same instance |
| Orchestrator.ExactIsOptimal | lib/knapsack_solver/solver.rb:35-43 | every recorded price is at most the optimum, and an exact method's price equals it |
| Orchestrator.RelativeErrorsBounded | lib/knapsack_solver/solver.rb:79-90 | every added relative error lies in [0, 1] for a positive optimum, and the exact method's own error is 0 |
| Orchestrator.MeanBounds | lib/knapsack_solver/solver.rb:70 | a mean lies between the smallest and the largest value |
| Orchestrator.FiniteSum | lib/knapsack_solver/solver.rb:70 | summing finite errors gives the real sum |
| Orchestrator.NaNAbsorbs | lib/knapsack_solver/solver.rb:70 | one NaN error makes the sum and the mean NaN |
| Orchestrator.AveragesOf | lib/knapsack_solver/solver.rb:67-72 | one averages record: the means of the prices, CPU times and wall-clock times, and the mean relative error exactly when the results carry errors |
| Orchestrator.AveragePriceBounds | lib/knapsack_solver/solver.rb:67-72 | the average price lies between the lowest and the highest price |
| Orchestrator.AverageErrorBounds | lib/knapsack_solver/solver.rb:67-72 | errors all in [0, 1] average into [0, 1]; one NaN error makes the average NaN |
| Orchestrator.RunResultsAverageable | lib/knapsack_solver/solver.rb:53-59 | the averages can be taken for every dataset and every method of a run's results |
| Orchestrator.Stats | lib/knapsack_solver/solver.rb:53-59 | one statistics entry per result entry with the same id, and per method the averages of that method's results |

## Left out

- The timing loop (`execution_time`, `lib/knapsack_solver/solver.rb:96-107`)
  is left out, because the clock is input. It repeats `run` until both times
  are non-zero. The times are a parameter, and each solve is run once (see
  "Repeated runs" above).
- Orchestrator.SolveInstance and FptasSolver.Fptas.Run: a repeated FPTAS
  run over the same object is not modelled. In floating point,
  `modify_prices_for_epsilon!` (`lib/knapsack_solver/solving_methods/fptas.rb:31-35`)
  is not a fixed point: rounding can make a second rescale of the prices
  differ from the first. The configuration and price the solver reports
  for FPTAS may then depend on how often the timing loop repeated. The model
  rescales once, in exact arithmetic.
- Floating point: prices, times and errors are exact reals and rationals.
  - Rounding in `(opt - apx) / opt` and in the averages is not modelled.
  - Rounding in FPTAS's `price.to_f / k` is not modelled either: the model
    floors the exact quotient.
  - NaN and negative infinity are kept, because the solver really produces
    them.
- Instances.ParseInteger: accepts an optional sign and decimal digits only.
  Ruby's `Integer()` also reads `0x`/`0b`/`0o` prefixes, reads a leading `0`
  as octal, and allows `_` between digits; none of these are modelled.
- Inputs on which the Ruby code crashes, rather than raising one of its
  messages, are preconditions (`Orchestrator.Solvable`):
  - branch and bound on an instance with no things;
  - FPTAS with no things, or with every price 0 (the divisor `k` is 0);
  - the heuristic when a thing has price 0 and weight 0 (`0.0 / 0` is NaN and
    the sort's comparison fails). With one thing the sort compares nothing,
    so that case is allowed.
- HeuristicSolver.SortByRatio: the order of things with equal ratios is
  fixed by an insertion sort. Ruby's `sort` is not stable and may order ties
  differently. The model compares the exact ratios by cross-multiplication
  (`HeuristicSolver.RatioGe`). The source compares `price.to_f / weight` as
  doubles, so ratios that differ only beyond double precision tie there too.
  Such near-ties may also be ordered differently.
- Orchestrator.Methods: the order is stated for neighbouring entries. Since
  the ranks strictly increase, that fixes the whole order.
- Some source state is not modelled:
  - branch and bound's unused `start_index` argument;
  - the `nil` value of its undecided configuration cells (modelled as 0,
    never read before being set);
  - the dynamic program's unused `@config`.
- FPTAS changes the shared instance in place. A later user of the same
  `Instance` object would see the rescaled prices. No method runs after FPTAS
  in the solver, so each solve in the model gets a fresh object, and that
  aliasing is not modelled.
- The solver changes its result hashes in place, in `run` and
  `add_relative_error`. This is modelled on values: `Orchestrator.Put`
  and `Orchestrator.AddRelativeError` return the updated table.
- The command-line front end, the result printers and graph plotting are
  not part of this model.
- FptasSolver.Fptas.Run: states that the result fits, but not the
  `(1 - epsilon)` bound. That bound does not hold for the code as written;
  see "## Findings".

## Findings

| source | as written | input that shows it | evidently intended | confidence | as-written member | corrected member |
|---|---|---|---|---|---|---|
| lib/knapsack_solver/solving_methods/fptas.rb:32-34 | the scale `k = epsilon * m / n` takes `m` from the most expensive thing, even when that thing alone exceeds the capacity | prices [100, 1], weights [100, 1], capacity 1, epsilon 1/2: the rescaled prices are [4, 0], the returned configuration is [0, 0] with price 0, while the optimum is 1 (relative error 1 > 1/2) | take `m` from the most expensive thing that fits alone, so the price is always at least `(1 - epsilon)` times the optimum, as the epsilon parameter promises (fptas.rb:10) | not executed | FptasSolver.FptasBoundFails | FptasSolver.CorrectedFptasWithinEpsilon |

The solver model (`Orchestrator.Solves`, `FptasSolver.Fptas`) follows the
code as written and uses `FptasSolver.FptasConfig`. `FptasSolver.CorrectedFptasConfig`
is the corrected scheme, and the proof of its bound is
`FptasSolver.CorrectedFptasWithinEpsilon`. The bound for the code as written, under the
condition that makes it hold, is `FptasSolver.FptasWithinEpsilonWhenMaxFits`.
