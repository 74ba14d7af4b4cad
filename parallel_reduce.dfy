/**
 `ParallelReduce`: two ways of folding a sequence with a binary `reducer` and a `seed`.

 - `ReduceWithForImplementation` materialises the query into a list and runs `Parallel.For`
   over its indices; each iteration replaces the one shared `result` by
   `reducer(result, list[i])` inside a lock, so the updates form one serial chain in the order
   in which iterations take the lock. That order is the `order` parameter.
 - `Reduce` is PLINQ's `Aggregate(seed, update, combine, resultSelector)`: every partition
   folds its own elements starting from `seed`, and the partition results are then combined,
   starting from the first, with the same `reducer`. The partitions, in the order in which
   they are combined, are the `chunks` parameter.

 Which algebraic laws of `reducer` make the outcome independent of these choices is stated
 by the lemmas below.
 */
module ParallelReduce {
  import opened Sequences
  import opened Schedule

  /** The sequential left fold: `xs.Aggregate(acc, f)`. */
  function FoldLeft<A, X>(f: (A, X) -> A, acc: A, xs: seq<X>): A
  {
    if xs == [] then acc else FoldLeft(f, f(acc, xs[0]), xs[1..])
  }

  /** `xs.Aggregate(f)` without a seed: the first element is the starting accumulator. */
  function AggregateUnseeded<T>(f: (T, T) -> T, xs: seq<T>): T
    requires |xs| > 0
  {
    FoldLeft(f, xs[0], xs[1..])
  }

  /** Folding in two elements in either order gives the same accumulator: f(f(s, a), b) == f(f(s, b), a). */
  ghost predicate RightCommutative<A(!new), X(!new)>(f: (A, X) -> A)
  {
    forall acc, a, b :: f(f(acc, a), b) == f(f(acc, b), a)
  }

  ghost predicate Associative<T(!new)>(f: (T, T) -> T)
  {
    forall a, b, c :: f(f(a, b), c) == f(a, f(b, c))
  }

  ghost predicate Commutative<T(!new)>(f: (T, T) -> T)
  {
    forall a, b :: f(a, b) == f(b, a)
  }

  /** `e` is a two-sided identity of f. */
  ghost predicate IsIdentity<T(!new)>(f: (T, T) -> T, e: T)
  {
    forall x :: f(e, x) == x && f(x, e) == x
  }

  /** Once the accumulator is `z`, folding anything in leaves it `z`. */
  ghost predicate IsLeftAbsorbing<T(!new)>(f: (T, T) -> T, z: T)
  {
    forall x :: f(z, x) == z
  }

  lemma {:induction false} FoldLeftAppend<A, X>(f: (A, X) -> A, acc: A, a: seq<X>, b: seq<X>)
    ensures FoldLeft(f, acc, a + b) == FoldLeft(f, FoldLeft(f, acc, a), b)
    decreases |a|
  {
    if a == [] {
      assert a + b == b;
    } else {
      assert (a + b)[0] == a[0];
      assert (a + b)[1..] == a[1..] + b;
      FoldLeftAppend(f, f(acc, a[0]), a[1..], b);
    }
  }

  lemma FoldLeftSnoc<A, X>(f: (A, X) -> A, acc: A, a: seq<X>, x: X)
    ensures FoldLeft(f, acc, a + [x]) == f(FoldLeft(f, acc, a), x)
  {
    FoldLeftAppend(f, acc, a, [x]);
    assert [x][1..] == [];
  }

  /**
   The shared-accumulator fold: `result` starts at `seed` and each visited index performs one
   complete read-combine-write. The result is the left fold, from `seed`, of the elements in
   visiting order; every element is folded in exactly once; an empty list leaves `seed`; and
   when `reducer` is right-commutative every visiting order gives the sequential left fold.
   */
  method ReduceWithForImplementation<T(!new)>(list: seq<T>, reducer: (T, T) -> T, seed: T, order: seq<nat>)
    returns (result: T)
    requires IsVisitOrder(order, |list|)
    ensures result == FoldLeft(reducer, seed, Gather(list, order))
    ensures multiset(Gather(list, order)) == multiset(list)
    ensures |list| == 0 ==> result == seed
    ensures RightCommutative(reducer) ==> result == FoldLeft(reducer, seed, list)
  {
    result := seed;
    for k := 0 to |order|
      invariant result == FoldLeft(reducer, seed, Gather(list, order[..k]))
    {
      assert order[..k + 1] == order[..k] + [order[k]];
      GatherAppend(list, order[..k], [order[k]]);
      assert Gather(list, [order[k]]) == [list[order[k]]];
      FoldLeftSnoc(reducer, seed, Gather(list, order[..k]), list[order[k]]);
      result := reducer(result, list[order[k]]);
    }
    assert order[..|order|] == order;
    GatherReorders(list, order);
    VisitOrderOnce(order, |list|, 0);
    if RightCommutative(reducer) {
      FoldLeftPermutation(reducer, seed, Gather(list, order), list);
    }
  }

  /** Under right-commutativity an element folded in last may be folded in first instead. */
  lemma {:induction false} FoldLeftMoveFront<A(!new), X(!new)>(f: (A, X) -> A, acc: A, x: X, ys: seq<X>)
    requires RightCommutative(f)
    ensures FoldLeft(f, f(acc, x), ys) == f(FoldLeft(f, acc, ys), x)
    decreases |ys|
  {
    if ys != [] {
      assert f(f(acc, x), ys[0]) == f(f(acc, ys[0]), x);
      FoldLeftMoveFront(f, f(acc, ys[0]), x, ys[1..]);
    }
  }

  /** A right-commutative fold does not depend on the order of its elements. */
  lemma {:induction false} FoldLeftPermutation<A(!new), X(!new)>(f: (A, X) -> A, acc: A, a: seq<X>, b: seq<X>)
    requires RightCommutative(f)
    requires multiset(a) == multiset(b)
    ensures FoldLeft(f, acc, a) == FoldLeft(f, acc, b)
    decreases |a|
  {
    if a == [] {
      assert |b| == |multiset(b)| == 0;
    } else {
      var k := Split(b, a[0]);
      var left, right := b[..k], b[k + 1..];
      MultisetRemove(a, b, k);
      FoldLeftPermutation(f, f(acc, a[0]), a[1..], left + right);
      calc {
        FoldLeft(f, acc, a);
        FoldLeft(f, f(acc, a[0]), a[1..]);
        FoldLeft(f, f(acc, a[0]), left + right);
        { FoldLeftAppend(f, f(acc, a[0]), left, right); }
        FoldLeft(f, FoldLeft(f, f(acc, a[0]), left), right);
        { FoldLeftMoveFront(f, acc, a[0], left); }
        FoldLeft(f, f(FoldLeft(f, acc, left), a[0]), right);
        { FoldLeftSnoc(f, acc, left, a[0]); }
        FoldLeft(f, FoldLeft(f, acc, left + [a[0]]), right);
        { FoldLeftAppend(f, acc, left + [a[0]], right); }
        FoldLeft(f, acc, left + [a[0]] + right);
        { assert b == left + [a[0]] + right; }
        FoldLeft(f, acc, b);
      }
    }
  }

  /** When the seed is absorbed by the first element, the seeded fold is the unseeded `Aggregate`. */
  lemma SeedAbsorbedByFirst<T>(f: (T, T) -> T, seed: T, xs: seq<T>)
    requires |xs| > 0 && f(seed, xs[0]) == xs[0]
    ensures FoldLeft(f, seed, xs) == AggregateUnseeded(f, xs)
  {
  }

  /** The per-partition accumulators, each folded from `seed`. */
  function Partials<T>(reducer: (T, T) -> T, seed: T, chunks: seq<seq<T>>): (r: seq<T>)
    ensures |r| == |chunks|
  {
    if chunks == [] then [] else [FoldLeft(reducer, seed, chunks[0])] + Partials(reducer, seed, chunks[1..])
  }

  /**
   `Reduce`: the elements of `list` are split into at least one partition (some may be
   empty), each partition is folded from `seed`, and the partition results are combined
   left to right starting from the first.
   */
  function Reduce<T>(list: seq<T>, reducer: (T, T) -> T, seed: T, chunks: seq<seq<T>>): (r: T)
    requires |chunks| > 0 && multiset(Flatten(chunks)) == multiset(list)
    ensures |chunks| == 1 ==> r == FoldLeft(reducer, seed, chunks[0])
  {
    var partials := Partials(reducer, seed, chunks);
    FoldLeft(reducer, partials[0], partials[1..])
  }

  /** With an associative reducer and an identity seed, the fold from any accumulator factors through the fold from the seed. */
  lemma {:induction false} FoldLeftFactor<T(!new)>(f: (T, T) -> T, e: T, acc: T, xs: seq<T>)
    requires Associative(f) && IsIdentity(f, e)
    ensures FoldLeft(f, acc, xs) == f(acc, FoldLeft(f, e, xs))
    decreases |xs|
  {
    if xs != [] {
      FoldLeftFactor(f, e, f(acc, xs[0]), xs[1..]);
      FoldLeftFactor(f, e, xs[0], xs[1..]);
      assert f(e, xs[0]) == xs[0];
      assert f(f(acc, xs[0]), FoldLeft(f, e, xs[1..])) == f(acc, f(xs[0], FoldLeft(f, e, xs[1..])));
    }
  }

  lemma {:induction false} FoldPartials<T(!new)>(f: (T, T) -> T, e: T, acc: T, chunks: seq<seq<T>>)
    requires Associative(f) && IsIdentity(f, e)
    ensures FoldLeft(f, acc, Partials(f, e, chunks)) == FoldLeft(f, acc, Flatten(chunks))
    decreases |chunks|
  {
    if chunks != [] {
      var p := Partials(f, e, chunks);
      assert p[0] == FoldLeft(f, e, chunks[0]) && p[1..] == Partials(f, e, chunks[1..]);
      FoldLeftFactor(f, e, acc, chunks[0]);
      FoldPartials(f, e, f(acc, p[0]), chunks[1..]);
      FoldLeftAppend(f, acc, chunks[0], Flatten(chunks[1..]));
    }
  }

  /**
   With an associative reducer whose seed is its identity (sum and 0), `Reduce` equals the
   sequential fold for every split of the list into consecutive partitions.
   */
  lemma ReduceMonoidOrdered<T(!new)>(list: seq<T>, reducer: (T, T) -> T, seed: T, chunks: seq<seq<T>>)
    requires Associative(reducer) && IsIdentity(reducer, seed)
    requires |chunks| > 0 && Flatten(chunks) == list
    ensures Reduce(list, reducer, seed, chunks) == FoldLeft(reducer, seed, list)
  {
    var p := Partials(reducer, seed, chunks);
    assert reducer(seed, p[0]) == p[0];
    FoldPartials(reducer, seed, seed, chunks);
  }

  /**
   If the reducer is moreover commutative, `Reduce` equals the sequential fold for every
   partitioning whatsoever and every combine order.
   */
  lemma ReduceCommutativeMonoid<T(!new)>(list: seq<T>, reducer: (T, T) -> T, seed: T, chunks: seq<seq<T>>)
    requires Associative(reducer) && Commutative(reducer) && IsIdentity(reducer, seed)
    requires |chunks| > 0 && multiset(Flatten(chunks)) == multiset(list)
    ensures Reduce(list, reducer, seed, chunks) == FoldLeft(reducer, seed, list)
  {
    ReduceMonoidOrdered(Flatten(chunks), reducer, seed, chunks);
    assert RightCommutative(reducer) by {
      forall acc, a, b ensures reducer(reducer(acc, a), b) == reducer(reducer(acc, b), a) {
        calc {
          reducer(reducer(acc, a), b);
          reducer(acc, reducer(a, b));
          reducer(acc, reducer(b, a));
          reducer(reducer(acc, b), a);
        }
      }
    }
    FoldLeftPermutation(reducer, seed, Flatten(chunks), list);
  }

  lemma {:induction false} FoldFromAbsorbing<T(!new)>(f: (T, T) -> T, z: T, xs: seq<T>)
    requires IsLeftAbsorbing(f, z)
    ensures FoldLeft(f, z, xs) == z
    decreases |xs|
  {
    if xs != [] {
      FoldFromAbsorbing(f, z, xs[1..]);
    }
  }

  lemma {:induction false} PartialsAllAbsorbing<T(!new)>(f: (T, T) -> T, z: T, chunks: seq<seq<T>>)
    requires IsLeftAbsorbing(f, z)
    ensures forall k :: 0 <= k < |chunks| ==> Partials(f, z, chunks)[k] == z
    decreases |chunks|
  {
    if chunks != [] {
      FoldFromAbsorbing(f, z, chunks[0]);
      PartialsAllAbsorbing(f, z, chunks[1..]);
    }
  }

  /**
   Every partition starts from `seed`, so a seed that absorbs everything (0 under
   multiplication) is the result of `Reduce` for every partitioning.
   */
  lemma ReduceAbsorbingSeed<T(!new)>(list: seq<T>, reducer: (T, T) -> T, seed: T, chunks: seq<seq<T>>)
    requires IsLeftAbsorbing(reducer, seed)
    requires |chunks| > 0 && multiset(Flatten(chunks)) == multiset(list)
    ensures Reduce(list, reducer, seed, chunks) == seed
  {
    PartialsAllAbsorbing(reducer, seed, chunks);
    FoldFromAbsorbing(reducer, seed, Partials(reducer, seed, chunks)[1..]);
  }
}
