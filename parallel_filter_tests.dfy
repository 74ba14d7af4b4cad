/** The properties the ParallelFilter test checks, stated for every visiting order. */
module ParallelFilterTests {
  import opened Sequences
  import opened Schedule
  import opened TestOperators
  import opened ParallelFilter

  /** [0, 2k) holds exactly k odd numbers. */
  lemma {:induction false} OddCount(k: nat)
    ensures |Where(Range(0, 2 * k), IsOdd)| == k
  {
    if k > 0 {
      OddCount(k - 1);
      var front, back := Range(0, 2 * k - 2), [2 * k - 2, 2 * k - 1];
      assert Range(0, 2 * k) == front + back;
      KeepAppend(front, back, IsOdd, Identity);
      Parity(k - 1);
      KeepAppend([2 * k - 2], [2 * k - 1], IsOdd, Identity);
      KeepSingle(2 * k - 2, IsOdd, Identity);
      KeepSingle(2 * k - 1, IsOdd, Identity);
      assert back == [2 * k - 2] + [2 * k - 1];
    }
  }

  /**
   `Enumerable.Range(0, 100).AsParallel().Filter(x => x % 2 == 1)`: whatever the visiting
   order, the count is 50 and the result sorted equals the sorted sequential filter.
   */
  method TestParallelFilter(order: seq<nat>) returns (result: seq<int>)
    requires IsVisitOrder(order, 100)
    ensures |result| == 50
    ensures forall ordered, expected ::
              Sorted(ordered) && multiset(ordered) == multiset(result) &&
              Sorted(expected) && multiset(expected) == multiset(Where(Range(0, 100), IsOdd))
              ==> ordered == expected
  {
    result := Filter(Range(0, 100), IsOdd, order);
    OddCount(50);
    forall ordered, expected |
      Sorted(ordered) && multiset(ordered) == multiset(result) &&
      Sorted(expected) && multiset(expected) == multiset(Where(Range(0, 100), IsOdd))
      ensures ordered == expected
    {
      SortedUnique(ordered, expected);
    }
  }
}
