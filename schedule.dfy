/**
 How a parallel loop hands out work, as quantified data rather than executed behaviour.

 `Parallel.For(0, n, ...)` runs its body once per index of [0, n); which worker runs which
 index, in which order, and in which order the workers finish is up to the scheduler.
 The model takes that choice as a parameter:
 - a visit order: a sequence of indices in which each index of [0, n) occurs exactly once
   (used where all updates go to one shared accumulator);
 - a chunking: one non-empty index list per worker that ran, listed in the order in which the
   workers reach their final step; together the lists hold each index of [0, n) exactly once.
 */
module Schedule {
  import opened Sequences

  /** Each index of [0, n) is visited exactly once, and nothing else is visited. */
  ghost predicate IsVisitOrder(order: seq<nat>, n: nat)
  {
    InBounds(order, n) && multiset(order) == multiset(Indices(n))
  }

  /** One non-empty list of in-range indices per worker; together they hold [0, n) exactly once. */
  ghost predicate IsChunking(chunks: seq<seq<nat>>, n: nat)
  {
    && (forall k :: 0 <= k < |chunks| ==> |chunks[k]| > 0 && InBounds(chunks[k], n))
    && multiset(Flatten<nat>(chunks)) == multiset(Indices(n))
  }

  lemma {:induction false} IndicesOccurOnce(n: nat, i: int)
    ensures multiset(Indices(n))[i] == if 0 <= i < n then 1 else 0
  {
    if n > 0 {
      assert Indices(n) == Indices(n - 1) + [n - 1];
      IndicesOccurOnce(n - 1, i);
    }
  }

  /** A visit order contains each index of [0, n) exactly once. */
  lemma VisitOrderOnce(order: seq<nat>, n: nat, i: int)
    requires IsVisitOrder(order, n)
    ensures multiset(order)[i] == if 0 <= i < n then 1 else 0
    ensures |order| == n
  {
    IndicesOccurOnce(n, i);
    assert |order| == |multiset(order)| == |multiset(Indices(n))| == n;
  }

  /** Across all workers of a chunking, each index of [0, n) is visited exactly once. */
  lemma ChunkingVisitsOnce(chunks: seq<seq<nat>>, n: nat, i: nat)
    requires IsChunking(chunks, n)
    ensures multiset(Flatten<nat>(chunks))[i] == if i < n then 1 else 0
  {
    IndicesOccurOnce(n, i);
    var visited: multiset<nat>, expected: multiset<nat> := multiset(Flatten(chunks)), multiset(Indices(n));
    assert visited[i] == expected[i];
  }

  lemma {:induction false} FlattenInBounds(chunks: seq<seq<nat>>, n: nat)
    requires forall k :: 0 <= k < |chunks| ==> InBounds(chunks[k], n)
    ensures InBounds(Flatten(chunks), n)
    decreases |chunks|
  {
    if chunks != [] {
      FlattenInBounds(chunks[1..], n);
    }
  }

  /** The index lists of a chunking, joined in order, form a visit order. */
  lemma ChunkingFlattensToVisitOrder(chunks: seq<seq<nat>>, n: nat)
    requires IsChunking(chunks, n)
    ensures IsVisitOrder(Flatten(chunks), n)
  {
    FlattenInBounds(chunks, n);
  }

  /** Parallel.For over an empty range runs no worker at all. */
  lemma EmptyRangeNoChunks(chunks: seq<seq<nat>>)
    requires IsChunking(chunks, 0)
    ensures chunks == []
  {
    assert |Flatten(chunks)| == |multiset(Flatten(chunks))| == 0;
  }

  /**
   Any merge order of the workers of a chunking is again a chunking of the same range,
   so quantifying over chunkings also quantifies over the order in which workers finish.
   */
  lemma ChunkingReorder(chunks: seq<seq<nat>>, reordered: seq<seq<nat>>, n: nat)
    requires IsChunking(chunks, n)
    requires multiset(reordered) == multiset(chunks)
    ensures IsChunking(reordered, n)
  {
    FlattenPermutation(reordered, chunks);
    forall k | 0 <= k < |reordered| ensures |reordered[k]| > 0 && InBounds(reordered[k], n) {
      assert reordered[k] in multiset(chunks);
    }
  }
}
