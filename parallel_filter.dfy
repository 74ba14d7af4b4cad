/**
 `ParallelFilter.Filter`: a predicate filter written as one seeded `Aggregate` over the
 parallel query. The seed is a single `List<T>`; each step appends the item when the
 predicate holds and returns that same list, so the steps form one chain over one
 accumulator, in an order the query chooses: the `order` parameter.
 */
module ParallelFilter {
  import opened Sequences
  import opened Schedule

  function Identity<T>(x: T): T
  {
    x
  }

  /** The sequential reference `sequence.Where(pred)`. */
  function Where<T>(s: seq<T>, pred: T -> bool): seq<T>
  {
    Keep(s, pred, Identity)
  }

  /**
   The `Aggregate` step: returns the same accumulator, extended at the end by `item`
   exactly when the predicate holds of it.
   */
  method Accumulate<T>(pred: T -> bool, acc: seq<T>, item: T) returns (acc': seq<T>)
    ensures |acc| <= |acc'| <= |acc| + 1
    ensures acc'[..|acc|] == acc
    ensures |acc'| == |acc| + 1 <==> pred(item)
    ensures |acc'| == |acc| + 1 ==> acc'[|acc|] == item
  {
    acc' := acc;
    if pred(item) {
      acc' := acc' + [item];
    }
  }

  /**
   `Filter` under the visiting order `order`: as a multiset the result is the sequential
   filter, hence it has the same count, contains exactly the input elements satisfying the
   pred, and is a sub-multiset of the input.
   */
  method Filter<T>(sequence: seq<T>, pred: T -> bool, order: seq<nat>) returns (result: seq<T>)
    requires IsVisitOrder(order, |sequence|)
    ensures multiset(result) == multiset(Where(sequence, pred))
    ensures |result| == |Where(sequence, pred)|
    ensures multiset(result) <= multiset(sequence)
    ensures forall x :: x in result <==> x in sequence && pred(x)
  {
    result := [];
    for k := 0 to |order|
      invariant result == Where(Gather(sequence, order[..k]), pred)
    {
      var before := result;
      result := Accumulate(pred, result, sequence[order[k]]);
      assert result == before + (if pred(sequence[order[k]]) then [sequence[order[k]]] else []);
      WhereStep(sequence, pred, order, k);
    }
    assert order[..|order|] == order;
    GatherReorders(sequence, order);
    KeepPermutation(Gather(sequence, order), sequence, pred, Identity);
    assert |result| == |multiset(result)| == |multiset(Where(sequence, pred))| == |Where(sequence, pred)|;
    WhereSubMultiset(sequence, pred);
    forall x ensures x in result <==> x in sequence && pred(x) {
      assert x in result <==> x in multiset(Where(sequence, pred));
      WhereIff(sequence, pred, x);
    }
  }

  lemma WhereStep<T>(s: seq<T>, pred: T -> bool, order: seq<nat>, k: nat)
    requires InBounds(order, |s|) && k < |order|
    ensures Where(Gather(s, order[..k + 1]), pred)
         == Where(Gather(s, order[..k]), pred) + (if pred(s[order[k]]) then [s[order[k]]] else [])
  {
    var x := s[order[k]];
    assert order[..k + 1] == order[..k] + [order[k]];
    GatherAppend(s, order[..k], [order[k]]);
    assert Gather(s, [order[k]]) == [x];
    KeepAppend(Gather(s, order[..k]), [x], pred, Identity);
    KeepSingle(x, pred, Identity);
  }

  /** The filter only drops elements: no element occurs more often than in the input. */
  lemma {:induction false} WhereSubMultiset<T>(s: seq<T>, pred: T -> bool)
    ensures multiset(Where(s, pred)) <= multiset(s)
    decreases |s|
  {
    if s != [] {
      WhereSubMultiset(s[1..], pred);
      assert s == [s[0]] + s[1..];
    }
  }

  /** An element is kept iff it occurs in the input and satisfies the predicate. */
  lemma WhereIff<T>(s: seq<T>, pred: T -> bool, x: T)
    ensures x in Where(s, pred) <==> x in s && pred(x)
  {
    KeepMember(s, pred, Identity, x);
    if x in s && pred(x) {
      var i :| 0 <= i < |s| && s[i] == x;
      assert pred(s[i]) && Identity(s[i]) == x;
    }
  }
}
