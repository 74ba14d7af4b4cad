/** The properties the MapReduce tests check, stated for every scheduling. */
module MapReduceTests {
  import opened Options
  import opened Sequences
  import opened Schedule
  import opened TestOperators
  import opened MapReduce

  /** The even numbers of [0, 2k) mapped by x * 3 + 10: 10, 16, ..., 6k + 4. */
  lemma {:induction false} EvenImages(k: nat)
    ensures FilterMap(Range(0, 2 * k), Some(IsEven), TimesThreePlusTen) == seq(k, i => 6 * i + 10)
  {
    if k > 0 {
      EvenImages(k - 1);
      var front, back := Range(0, 2 * k - 2), [2 * k - 2, 2 * k - 1];
      assert Range(0, 2 * k) == front + back;
      var p := Accepts(Some(IsEven));
      KeepAppend(front, back, p, TimesThreePlusTen);
      Parity(k - 1);
      assert p(2 * k - 2) && !p(2 * k - 1);
      KeepAppend([2 * k - 2], [2 * k - 1], p, TimesThreePlusTen);
      KeepSingle(2 * k - 2, p, TimesThreePlusTen);
      KeepSingle(2 * k - 1, p, TimesThreePlusTen);
      assert back == [2 * k - 2] + [2 * k - 1];
      assert seq(k, i => 6 * i + 10) == seq(k - 1, i => 6 * i + 10) + [6 * (k - 1) + 10];
    }
  }

  /** Sequentially, the even numbers of [0, 10) mapped by x * 3 + 10 are 10, 16, 22, 28, 34. */
  lemma EvenScenarioSequential()
    ensures FilterMap(Range(0, 10), Some(IsEven), TimesThreePlusTen) == [10, 16, 22, 28, 34]
  {
    EvenImages(5);
    assert seq(5, i => 6 * i + 10) == [10, 16, 22, 28, 34];
  }

  /**
   `MapReduce.Run(Enumerable.Range(0, 10), even, x * 3 + 10, null)`: whatever the
   scheduling, the result sorted is [10, 16, 22, 28, 34].
   */
  method TestEvenScenario(chunks: seq<seq<nat>>) returns (result: seq<int>)
    requires IsChunking(chunks, 10)
    ensures multiset(result) == multiset([10, 16, 22, 28, 34])
    ensures forall ordered :: Sorted(ordered) && multiset(ordered) == multiset(result)
                              ==> ordered == [10, 16, 22, 28, 34]
  {
    var input := Range(0, 10);
    result := Run(input, Some(IsEven), TimesThreePlusTen, None, chunks);
    EvenScenarioSorted(result);
  }

  /** Any list with the scenario's values, sorted, is [10, 16, 22, 28, 34]. */
  lemma EvenScenarioSorted(result: seq<int>)
    requires multiset(result) == multiset(FilterMap(Range(0, 10), Some(IsEven), TimesThreePlusTen))
    ensures multiset(result) == multiset([10, 16, 22, 28, 34])
    ensures forall ordered :: Sorted(ordered) && multiset(ordered) == multiset(result)
                              ==> ordered == [10, 16, 22, 28, 34]
  {
    EvenScenarioSequential();
    SortedExpected(result);
  }

  lemma SortedExpected(result: seq<int>)
    requires multiset(result) == multiset([10, 16, 22, 28, 34])
    ensures forall ordered :: Sorted(ordered) && multiset(ordered) == multiset(result)
                              ==> ordered == [10, 16, 22, 28, 34]
  {
    var expected := [10, 16, 22, 28, 34];
    assert Sorted(expected);
    forall ordered | Sorted(ordered) && multiset(ordered) == multiset(result)
      ensures ordered == expected
    {
      SortedUnique(ordered, expected);
    }
  }

  /**
   The parallel and the serial pipeline agree once both are sorted, for every input,
   filter, map and scheduling (the comparison the speed test makes).
   */
  lemma SortedParallelEqualsSortedSerial(s: seq<int>, filter: Option<int -> bool>, mapper: int -> int,
                                         chunks: seq<seq<nat>>, parallel: seq<int>, serial: seq<int>)
    requires IsChunking(chunks, |s|)
    requires Sorted(parallel) && multiset(parallel) == multiset(Merged(s, filter, mapper, None, chunks))
    requires Sorted(serial) && multiset(serial) == multiset(FilterMap(s, filter, mapper))
    ensures parallel == serial
  {
    NoReducerMatchesSequential(s, filter, mapper, chunks);
    SortedUnique(parallel, serial);
  }
}
