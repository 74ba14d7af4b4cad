/**
 `ParallelMap.Map`: a map-then-filter collector written as one seeded `Aggregate` over the
 parallel query. The seed is a single `List<R>`; each step maps the item, appends the image
 when `predicate` is present and accepts the image, and returns that same list. The steps
 therefore form one chain over one accumulator, in an order the query chooses: the `order`
 parameter.
 */
module ParallelMap {
  import opened Options
  import opened Sequences
  import opened Schedule

  /** Whether an image is kept: the predicate is asked about the mapped value; no predicate keeps nothing. */
  predicate Accepted<R>(pred: Option<R -> bool>, response: R)
  {
    pred.Some? && pred.value(response)
  }

  function KeepsImage<T, R>(mapper: T -> R, pred: Option<R -> bool>): T -> bool
  {
    x => Accepted(pred, mapper(x))
  }

  /** The sequential reference `sequence.Select(mapper).Where(pred)`, with the null-predicate quirk. */
  function MapThenFilter<T, R>(s: seq<T>, mapper: T -> R, pred: Option<R -> bool>): seq<R>
  {
    Keep(s, KeepsImage(mapper, pred), mapper)
  }

  /**
   The `Aggregate` step: returns the same accumulator, extended at the end by `mapper(item)`
   exactly when the predicate is present and accepts that image.
   */
  method Accumulate<T, R>(mapper: T -> R, pred: Option<R -> bool>, acc: seq<R>, item: T)
    returns (acc': seq<R>)
    ensures |acc| <= |acc'| <= |acc| + 1
    ensures acc'[..|acc|] == acc
    ensures |acc'| == |acc| + 1 <==> Accepted(pred, mapper(item))
    ensures |acc'| == |acc| + 1 ==> acc'[|acc|] == mapper(item)
  {
    var response := mapper(item);
    acc' := acc;
    if pred.Some? && pred.value(response) {
      acc' := acc' + [response];
    }
  }

  /**
   `Map` under the visiting order `order`: as a multiset the result is the sequential
   map-then-filter; every value in it satisfies the predicate; it is no longer than the
   input; and with no predicate it is empty.
   */
  method Map<T, R>(sequence: seq<T>, mapper: T -> R, pred: Option<R -> bool>, order: seq<nat>)
    returns (result: seq<R>)
    requires IsVisitOrder(order, |sequence|)
    ensures multiset(result) == multiset(MapThenFilter(sequence, mapper, pred))
    ensures forall j :: 0 <= j < |result| ==> Accepted(pred, result[j])
    ensures |result| <= |sequence|
    ensures pred.None? ==> result == []
  {
    result := [];
    for k := 0 to |order|
      invariant result == MapThenFilter(Gather(sequence, order[..k]), mapper, pred)
      invariant forall j :: 0 <= j < |result| ==> Accepted(pred, result[j])
    {
      var before := result;
      result := Accumulate(mapper, pred, result, sequence[order[k]]);
      assert result == before + (if Accepted(pred, mapper(sequence[order[k]])) then [mapper(sequence[order[k]])] else []);
      MapThenFilterStep(sequence, mapper, pred, order, k);
    }
    assert order[..|order|] == order;
    GatherReorders(sequence, order);
    KeepPermutation(Gather(sequence, order), sequence, KeepsImage(mapper, pred), mapper);
    assert |result| == |multiset(result)| == |multiset(MapThenFilter(sequence, mapper, pred))|;
    KeepLength(sequence, KeepsImage(mapper, pred), mapper);
    if pred.None? {
      NoPredicateNoResult(sequence, mapper);
    }
  }

  lemma MapThenFilterStep<T, R>(s: seq<T>, mapper: T -> R, pred: Option<R -> bool>, order: seq<nat>, k: nat)
    requires InBounds(order, |s|) && k < |order|
    ensures MapThenFilter(Gather(s, order[..k + 1]), mapper, pred)
         == MapThenFilter(Gather(s, order[..k]), mapper, pred)
            + (if Accepted(pred, mapper(s[order[k]])) then [mapper(s[order[k]])] else [])
  {
    var x := s[order[k]];
    assert order[..k + 1] == order[..k] + [order[k]];
    GatherAppend(s, order[..k], [order[k]]);
    assert Gather(s, [order[k]]) == [x];
    KeepAppend(Gather(s, order[..k]), [x], KeepsImage(mapper, pred), mapper);
    KeepSingle(x, KeepsImage(mapper, pred), mapper);
  }

  /** A null predicate never lets anything through. */
  lemma {:induction false} NoPredicateNoResult<T, R>(s: seq<T>, mapper: T -> R)
    ensures MapThenFilter(s, mapper, None) == []
    decreases |s|
  {
    if s != [] {
      NoPredicateNoResult(s[1..], mapper);
    }
  }

  /**
   A value is in the result iff it is the image of some input element and the predicate,
   asked about that image (not about the element), accepts it.
   */
  lemma MapThenFilterIff<T, R>(s: seq<T>, mapper: T -> R, pred: Option<R -> bool>, y: R)
    ensures y in MapThenFilter(s, mapper, pred)
        <==> pred.Some? && pred.value(y) && exists i :: 0 <= i < |s| && mapper(s[i]) == y
  {
    KeepMember(s, KeepsImage(mapper, pred), mapper, y);
  }
}
