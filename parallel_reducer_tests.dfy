/** The properties the ParallelReducer tests check, stated for every scheduling. */
module ParallelReducerTests {
  import opened Sequences
  import opened Schedule
  import opened TestOperators
  import opened ParallelReduce

  lemma {:induction false} FoldAddIsSum(acc: int, xs: seq<int>)
    ensures FoldLeft(Add, acc, xs) == acc + Sum(xs)
    decreases |xs|
  {
    if xs != [] {
      FoldAddIsSum(acc + xs[0], xs[1..]);
    }
  }

  lemma {:induction false} SumAppend(a: seq<int>, b: seq<int>)
    ensures Sum(a + b) == Sum(a) + Sum(b)
    decreases |a|
  {
    if a == [] {
      assert a + b == b;
    } else {
      assert (a + b)[1..] == a[1..] + b;
      SumAppend(a[1..], b);
    }
  }

  /** Gauss: 0 + 1 + ... + (n - 1). */
  lemma {:induction false} SumRange(n: nat)
    ensures Sum(Range(0, n)) == n * (n - 1) / 2
  {
    if n > 0 {
      SumRange(n - 1);
      assert Range(0, n) == Range(0, n - 1) + [n - 1];
      SumAppend(Range(0, n - 1), [n - 1]);
      assert Sum([n - 1]) == n - 1;
    }
  }

  lemma AddIsCommutativeMonoid()
    ensures Associative(Add) && Commutative(Add) && IsIdentity(Add, 0)
  {
  }

  /**
   `Enumerable.Range(0, 100).AsParallel().Reduce((x, y) => x + y, 0)` equals `lista.Sum()`,
   4950, for every partitioning and combine order.
   */
  lemma SumReduceMatchesSum(chunks: seq<seq<int>>)
    requires |chunks| > 0 && multiset(Flatten(chunks)) == multiset(Range(0, 100))
    ensures Reduce(Range(0, 100), Add, 0, chunks) == Sum(Range(0, 100)) == 4950
  {
    AddIsCommutativeMonoid();
    ReduceCommutativeMonoid(Range(0, 100), Add, 0, chunks);
    FoldAddIsSum(0, Range(0, 100));
    SumRange(100);
    assert 100 * 99 / 2 == 4950;
  }

  lemma SubIsRightCommutative()
    ensures RightCommutative(Sub)
  {
  }

  lemma MulIsRightCommutative()
    ensures RightCommutative(Mul)
  {
    forall acc, a, b ensures Mul(Mul(acc, a), b) == Mul(Mul(acc, b), a) {
      calc {
        (acc * a) * b;
        acc * (a * b);
        acc * (b * a);
        (acc * b) * a;
      }
    }
  }

  /**
   `ReduceWithForImplementation((x, y) => x - y, 0)` over [0, 100) equals the sequential
   unseeded `lista.Aggregate(reducer)` for every visiting order.
   */
  method TestSubtraction(order: seq<nat>) returns (result: int)
    requires IsVisitOrder(order, 100)
    ensures result == AggregateUnseeded(Sub, Range(0, 100))
  {
    var lista := Range(0, 100);
    SubIsRightCommutative();
    result := ReduceWithForImplementation(lista, Sub, 0, order);
    SeedAbsorbedByFirst(Sub, 0, lista);
  }

  lemma {:induction false} ProductOfPositives(acc: int, xs: seq<int>)
    requires acc >= 1
    requires forall i :: 0 <= i < |xs| ==> xs[i] >= 1
    ensures FoldLeft(Mul, acc, xs) >= 1
    decreases |xs|
  {
    if xs != [] {
      assert acc * xs[0] >= acc;
      ProductOfPositives(acc * xs[0], xs[1..]);
    }
  }

  /**
   With multiplication: `ReduceWithForImplementation(*, 1)` over [1, 10] equals the unseeded
   sequential product for every visiting order, while `Reduce(*, 0)` is 0 for every
   partitioning, so the two differ.
   */
  method TestMultiplication(order: seq<nat>, chunks: seq<seq<int>>) returns (result: int, result2: int)
    requires IsVisitOrder(order, 10)
    requires |chunks| > 0 && multiset(Flatten(chunks)) == multiset(Range(1, 10))
    ensures result == AggregateUnseeded(Mul, Range(1, 10))
    ensures result2 == 0
    ensures result != result2
  {
    var lista := Range(1, 10);
    MulIsRightCommutative();
    result := ReduceWithForImplementation(lista, Mul, 1, order);
    SeedAbsorbedByFirst(Mul, 1, lista);
    ProductOfPositives(1, lista);
    assert IsLeftAbsorbing(Mul, 0);
    ReduceAbsorbingSeed(lista, Mul, 0, chunks);
    result2 := Reduce(lista, Mul, 0, chunks);
  }

  /**
   Subtraction is neither associative nor has an identity seed, and `Reduce` then depends on
   the partitioning: on [1, 2] one partition gives 0 - 1 - 2 = -3, two partitions give
   (0 - 1) - (0 - 2) = 1.
   */
  lemma SubtractionReduceDependsOnPartitioning()
    ensures Reduce([1, 2], Sub, 0, [[1, 2]]) == -3
    ensures Reduce([1, 2], Sub, 0, [[1], [2]]) == 1
  {
    assert Flatten([[1, 2]]) == [1, 2];
    assert Flatten([[1], [2]]) == [1, 2];
    assert FoldLeft(Sub, 0, [1]) == -1 && FoldLeft(Sub, 0, [2]) == -2;
    assert Partials(Sub, 0, [[2]]) == [-2];
    assert Partials(Sub, 0, [[1], [2]]) == [-1, -2];
    assert FoldLeft(Sub, -1, [-2]) == 1;
  }
}
