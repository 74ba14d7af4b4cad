# A verified model of the Concurrent map/filter/reduce helpers

The C# library `Concurrent` wraps `Parallel.For` and PLINQ in five small entry points:

- `MapReduce.Run(seq, filter, map, reducer)`: filter-then-map into per-worker lists, an optional per-worker list reducer, and a shared `ConcurrentBag` of results.
- `ParallelMap.Map(sequence, map, predicate)`: map-then-filter, folded into one list.
- `ParallelFilter.Filter(sequence, predicate)`: a predicate filter, folded into one list.
- `ParallelReduce.ReduceWithForImplementation(reducer, seed)`: one shared accumulator updated under a lock.
- `ParallelReduce.Reduce(reducer, seed)`: PLINQ's two-level `Aggregate`. Each partition is folded from `seed`, then the partition results are combined.

This project models the logic inside those closures. It proves that the logic is correct for **every** schedule the runtime might pick. The scheduler is not executed. Its choices become universally quantified parameters:

- **Visit order** (`Schedule.IsVisitOrder`): a sequence holding each index of `[0, n)` exactly once. It is used where every update goes to one shared accumulator (`ReduceWithForImplementation`, `Map`, `Filter`).
- **Chunking** (`Schedule.IsChunking`): one non-empty index list per worker that ran, in the order the workers reach `threadAggregation`. Together the lists hold each index of `[0, n)` exactly once. Any reordering of a chunking is again a chunking (`Schedule.ChunkingReorder`), so chunkings also cover every merge order.
- **Partitioning** for `Reduce`: any split of the elements into at least one (possibly empty) partition, listed in combine order.

Modules follow the source files:

- `MapReduce` (map_reduce.dfy): imperative, like `MapReduce.cs`. The `body` closure is a method that extends a local list. Each worker is a loop. `threadAggregation` is a loop adding to the bag. `ConcurrentBag` is a `multiset`; its `ToList` is a loop that takes out the values in an unspecified order.
- `ParallelReduce` (parallel_reduce.dfy): `ReduceWithForImplementation` is a loop that overwrites `result`. `Reduce` is a pure function, with lemmas about the algebra of the reducer.
- `ParallelMap` and `ParallelFilter` (parallel_map.dfy, parallel_filter.dfy): Map.cs:25 and ParallelFilter.cs:15 call the seed-value overload `Aggregate(seed, func)`, which takes no combiner. PLINQ carries out that overload as a sequential fold over the query's output, in an order it does not specify. Each call is therefore a loop over one accumulator sequence, in the quantified visit order. Each step is a method.
- `Schedule`, `Sequences`, `Options`: scheduling predicates and sequence lemmas, used by all the modules above.
- `MapReduceTests`, `ParallelFilterTests`, `ParallelReducerTests`, `TestOperators`: the repository's unit-test scenarios, stated for every schedule.

Facts about the code that the model keeps:

- `ParallelMap.Map` with a null predicate returns an empty list (Map.cs:29-33).
- `MapReduce.Run` returns the bag's contents directly; no function runs over the merged results after the workers finish (MapReduce.cs:90-92).
- `Parallel.For` decides which indices each worker handles. The model allows any assignment of indices to workers, not only contiguous ranges.
- The library does not catch failures raised by the caller's delegates.

## Model

| member | source | states |
|---|---|---|
| `MapReduce.Body` | MapReduce.cs:48-70 | the loop body returns the same local list, extended at the end by `map(seq[i])` exactly when `filter` is null or accepts `seq[i]`; earlier contents are unchanged; `map` is a partial function defined only on accepted elements, so the body is checked never to apply it to a rejected one |
| `MapReduce.RunWorker` | MapReduce.cs:46-70 | a worker, starting from `threadInit`'s empty list and running `body` over its indices, holds the images of the accepted elements it visited, in visiting order |
| `MapReduce.ThreadAggregation` | MapReduce.cs:72-88 | the bag grows by exactly the reducer's output for that local list (the reducer is applied once), or by exactly the local list when there is no reducer; nothing else is added |
| `MapReduce.ToList` | MapReduce.cs:92 | the returned list holds every value of the bag with its multiplicity, in some order |
| `MapReduce.Run` | MapReduce.cs:42-93 | for every chunking: the result holds exactly the values the workers hand on; with a null reducer it equals, as a multiset, sequential `Where(filter).Select(map)`; an empty input gives an empty list |
| `MapReduce.NoReducerMatchesSequential` | MapReduce.cs:90 | with a null reducer, for every chunking and merge order, the merged values equal sequential filter-then-map as a multiset |
| `MapReduce.MergedWithoutReducer` | MapReduce.cs:72-90 | with a null reducer, the merged local lists are filter-then-map over the elements in the order the workers visited them |
| `MapReduce.CollectedIff` | MapReduce.cs:52-67 | a value is collected iff it is `map(x)` for some input element `x` that passes the filter |
| `MapReduce.SentinelPerWorker` | MapReduce.cs:74-87 | a reducer that appends one sentinel to each local list puts exactly one sentinel per worker into the result, in addition to the values collected without it |
| `MapReduce.LocalListStep` | MapReduce.cs:48-69 | one more visited index extends a worker's list by the image of that element exactly when it passes the filter |
| `Schedule.ChunkingVisitsOnce` | MapReduce.cs:90 | across the workers of a chunking, every index of `[0, Count)` is visited exactly once and no other index is visited |
| `Schedule.VisitOrderOnce` | ParallelReduce.cs:24-26 | a visit order contains every index of the materialised list exactly once |
| `Schedule.EmptyRangeNoChunks` | MapReduce.cs:90 | a parallel loop over an empty range runs no worker |
| `Schedule.ChunkingReorder` | MapReduce.cs:81-87 | any order in which the workers merge their lists is again a valid chunking |
| `Schedule.ChunkingFlattensToVisitOrder` | MapReduce.cs:90 | the workers' index lists, joined, form a visit order of `[0, Count)` |
| `Sequences.GatherReorders` | ParallelReduce.cs:20 | visiting a list in any order of its indices touches a permutation of its elements |
| `Sequences.KeepPermutation` | MapReduce.cs:52-67 | filter-and-transform depends only on the multiset of its input, not on the order |
| `Sequences.KeepMember` | Map.cs:27-33 | a value is produced iff it is the image of an input element that passes the test |
| `Sequences.KeepLength` | Map.cs:29-33 | filter-and-transform never gives more values than inputs |
| `Sequences.SortedUnique` | Concurrent.UnitTest/Tests/MapReduceTester.cs:14 | two sorted lists with equal multisets are equal, so comparing `.Order()` results compares multisets |
| `ParallelReduce.ReduceWithForImplementation` | ParallelReduce.cs:7-29 | for every visit order, the result is the left fold from `seed` of the list's elements in visiting order; those elements are a permutation of the list (each folded exactly once); an empty list returns `seed`; a right-commutative reducer gives the sequential left fold |
| `ParallelReduce.FoldLeftPermutation` | ParallelReduce.cs:18-21 | with a right-commutative reducer (`f(f(s,a),b) == f(f(s,b),a)`), the left fold is the same for every order of the elements |
| `ParallelReduce.FoldLeftMoveFront` | ParallelReduce.cs:18-21 | with a right-commutative reducer, an element folded in last may instead be folded in first |
| `ParallelReduce.SeedAbsorbedByFirst` | Concurrent.UnitTest/Tests/ParallelReducerTester.cs:42-46 | if `reducer(seed, first) == first`, the seeded fold equals the unseeded `Aggregate(reducer)` |
| `ParallelReduce.FoldLeftFactor` | ParallelReduce.cs:35-40 | with an associative reducer and identity seed, a fold from any accumulator is that accumulator combined with the fold from the seed |
| `ParallelReduce.FoldPartials` | ParallelReduce.cs:35-40 | with an associative reducer and identity seed, folding the per-partition results equals folding all elements |
| `ParallelReduce.Reduce` | ParallelReduce.cs:31-44 | the elements are split into at least one partition, each partition is folded from `seed`, and the partition results are combined in order; with a single partition this is the sequential fold from `seed` (its algebra: `ReduceMonoidOrdered`, `ReduceCommutativeMonoid`, `ReduceAbsorbingSeed`) |
| `ParallelReduce.ReduceMonoidOrdered` | ParallelReduce.cs:31-44 | with an associative reducer and a two-sided identity seed, `Reduce` equals the sequential fold for every split into consecutive partitions |
| `ParallelReduce.ReduceCommutativeMonoid` | ParallelReduce.cs:31-44 | if the reducer is also commutative, `Reduce` equals the sequential fold for every partitioning and combine order |
| `ParallelReduce.ReduceAbsorbingSeed` | ParallelReduce.cs:35-40 | every partition starts from `seed`, so a seed that absorbs everything (0 for `*`) is the result for every partitioning |
| `ParallelMap.Accumulate` | Map.cs:25-36 | the fold step returns the same accumulator, extended at the end by `map(item)` exactly when the predicate is non-null and accepts the mapped value |
| `ParallelMap.Map` | Map.cs:22-38 | for every visit order: the result equals, as a multiset, sequential map-then-filter; every value in it satisfies the predicate; it is no longer than the input; a null predicate gives an empty result |
| `ParallelMap.MapThenFilterStep` | Map.cs:25-35 | one more visited item extends the result by its image exactly when the predicate accepts that image |
| `ParallelMap.NoPredicateNoResult` | Map.cs:29-33 | with a null predicate nothing is ever appended |
| `ParallelMap.MapThenFilterIff` | Map.cs:27-30 | a value is in the result iff the predicate accepts it and it is the image of some input element, so the predicate is evaluated on the mapped value |
| `ParallelFilter.Accumulate` | ParallelFilter.cs:15-20 | the fold step returns the same accumulator, extended at the end by the item exactly when the predicate holds of it; earlier contents are unchanged |
| `ParallelFilter.Filter` | ParallelFilter.cs:13-21 | for every visit order: the result equals the sequential `Where` as a multiset, with the same count; it is a sub-multiset of the input; an element is in it iff it is in the input and satisfies the predicate |
| `ParallelFilter.WhereStep` | ParallelFilter.cs:16-19 | one more visited item extends the result by that item exactly when the predicate holds |
| `ParallelFilter.WhereSubMultiset` | ParallelFilter.cs:15-20 | the filter never duplicates an element |
| `ParallelFilter.WhereIff` | ParallelFilter.cs:17-18 | an element is kept iff it occurs in the input and the predicate holds of it |
| `MapReduceTests.EvenImages` | Concurrent.UnitTest/Tests/MapReduceTester.cs:11 | the even numbers of `[0, 2k)` mapped by `x*3+10` are `10, 16, ..., 6(k-1)+10` |
| `MapReduceTests.EvenScenarioSequential` | Concurrent.UnitTest/Tests/MapReduceTester.cs:11-14 | sequential filter-then-map of `[0..9]` with "even" and `x*3+10` is `[10, 16, 22, 28, 34]` |
| `MapReduceTests.TestEvenScenario` | Concurrent.UnitTest/Tests/MapReduceTester.cs:8-16 | for every chunking, `Run` on that scenario returns exactly `{10,16,22,28,34}`, and sorting it gives `[10, 16, 22, 28, 34]` |
| `MapReduceTests.EvenScenarioSorted` | Concurrent.UnitTest/Tests/MapReduceTester.cs:14 | any list with the scenario's values, once sorted, is `[10, 16, 22, 28, 34]` |
| `MapReduceTests.SortedParallelEqualsSortedSerial` | Concurrent.UnitTest/Tests/MapReduceTester.cs:67-78 | for every input, filter, map and chunking, the sorted parallel result equals the sorted serial `Where(...).Select(...)` |
| `ParallelFilterTests.OddCount` | Concurrent.UnitTest/Tests/ParallelFilterTester.cs:18-20 | `[0, 2k)` holds exactly `k` odd numbers under C#'s `%` |
| `ParallelFilterTests.TestParallelFilter` | Concurrent.UnitTest/Tests/ParallelFilterTester.cs:10-23 | for every visit order, filtering `[0..99]` by "odd" gives 50 elements, and sorting it gives the sorted sequential filter |
| `ParallelReducerTests.FoldAddIsSum` | Concurrent.UnitTest/Tests/ParallelReducerTester.cs:20 | folding with `+` from `acc` is `acc + lista.Sum()` |
| `ParallelReducerTests.SumRange` | Concurrent.UnitTest/Tests/ParallelReducerTester.cs:14-20 | the sum of `[0, n)` is `n(n-1)/2` |
| `ParallelReducerTests.SumReduceMatchesSum` | Concurrent.UnitTest/Tests/ParallelReducerTester.cs:10-23 | for every partitioning, `Reduce(+, 0)` over `[0..99]` equals `lista.Sum()`, which is 4950 |
| `ParallelReducerTests.MulIsRightCommutative` | Concurrent.UnitTest/Tests/ParallelReducerTester.cs:64 | multiplication satisfies `(s*a)*b == (s*b)*a` |
| `ParallelReducerTests.TestSubtraction` | Concurrent.UnitTest/Tests/ParallelReducerTester.cs:29-46 | for every visit order, `ReduceWithForImplementation(-, 0)` over `[0..99]` equals the unseeded sequential `lista.Aggregate(-)` |
| `ParallelReducerTests.ProductOfPositives` | Concurrent.UnitTest/Tests/ParallelReducerTester.cs:66-75 | a product of positive numbers, starting from a positive accumulator, is at least 1 |
| `ParallelReducerTests.TestMultiplication` | Concurrent.UnitTest/Tests/ParallelReducerTester.cs:58-76 | for every visit order, `ReduceWithForImplementation(*, 1)` over `[1..10]` equals the unseeded product; for every partitioning, `Reduce(*, 0)` is 0; so the two differ |
| `ParallelReducerTests.SubtractionReduceDependsOnPartitioning` | ParallelReduce.cs:35-40 | for subtraction, `Reduce` depends on the partitioning: on `[1, 2]`, one partition gives -3 and two partitions give 1 |
| `TestOperators.CsRemainder` | Concurrent.UnitTest/Tests/ParallelFilterTester.cs:16 | C#'s `%` truncates toward zero: the remainder differs from the dividend by a multiple of `m`, lies strictly between `-m` and `m`, and is non-negative for a non-negative dividend and non-positive for a negative one; together these determine it uniquely |
| `TestOperators.Parity` | Concurrent.UnitTest/Tests/ParallelFilterTester.cs:16 | under C#'s `%`, `2j` is even and not odd, and `2j + 1` is odd and not even |

## Left out

- Thread pools, `Parallel.For` and PLINQ scheduling, `MaxDegreeOfParallelism`, and the locks (including the lock on `reducer`). Each is replaced by a quantified visit order, chunking or partitioning. Each lock-guarded update is modelled as one atomic step.
- The interleaving of single `results.Add` calls from different workers inside `threadAggregation`. `ConcurrentBag` is modelled as a multiset, so this interleaving has no effect on what the model states.
- MapReduce.Run: a worker's local list exists only if the worker ran at least one iteration. A worker that gets no index runs neither `threadInit` nor `threadAggregation`.
- ParallelReduce.Reduce: the model assumes at least one partition, with every partition (even an empty one) seeded with `seed`, and partition results combined left to right from the first. How PLINQ actually partitions and orders the combine is not visible here, so both are parameters. For the same reason, the subtraction test's `NotEqual` between `Reduce` and `ReduceWithForImplementation` is not derived; only partition-dependence is shown.
- ParallelReduce.ReduceWithForImplementation: `query.ToList()` on an unordered query has no specified order. That order is absorbed into the visit order, which is quantified anyway.
- ParallelMap.Map and ParallelFilter.Filter: the model relies on PLINQ carrying out the seed-value `Aggregate(seed, func)` overload as one sequential fold. That behaviour belongs to the library and is not visible in this source.
- Exceptions thrown by `filter`, `map`, `predicate` or `reducer`, and their propagation as an `AggregateException`. The delegates are total functions, except that `Body` takes `map` as a partial function defined only on accepted elements. Side effects of the delegates are not modelled.
- 32-bit `int` wrap-around in the test lambdas. The model uses unbounded integers. The tests' values are at most 10! = 3628800 and do not reach 2^31.
- The cost of `IEnumerable.ElementAt` and `Count()`. The input is a `seq`.
- The timing test `TestSpeed` and `Thread.Sleep` are timing only. Its output equality is modelled by `MapReduceTests.SortedParallelEqualsSortedSerial`.
- `TestMaximumValue` is left out. Its reducer builds `new List<int>(maxValue)`, which does not hold `maxValue`. When the local list is non-empty, the result is an empty list with capacity `maxValue`. When the local list is empty, `maxValue` stays `int.MinValue` and the constructor throws. Either way, the expected `{40}` is not what the code computes.
- The floating-point division test is left out.
- Teste1.cs to Teste4.cs probe `Parallel.For` itself (thread ids, repeatability), not library logic. They are left out, as is console output.
- The racy "compute then swap" global accumulator is not modelled, because no such code exists in the modelled files.
