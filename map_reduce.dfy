/**
 `MapReduce.Run`: a filter-then-map collector over `Parallel.For` with thread-local lists.

 Every worker starts with an empty local list (`threadInit`), runs the loop `body` for each
 index it is handed, which appends `map(seq[i])` when `filter` is absent or accepts `seq[i]`,
 and finally runs `threadAggregation`, which passes its list through the optional per-worker
 `reducer` and adds every value of the outcome to the shared `ConcurrentBag` of results.
 The result is the bag's contents as a list.

 The scheduler's choices are the `chunks` parameter (see module Schedule); the bag is a
 multiset, since a `ConcurrentBag` keeps no order.
 */
module MapReduce {
  import opened Options
  import opened Sequences
  import opened Schedule

  /** Whether the element is processed: no filter accepts everything. */
  predicate Passes<T>(filter: Option<T -> bool>, x: T)
  {
    filter.None? || filter.value(x)
  }

  /** The filter as a total predicate. */
  function Accepts<T>(filter: Option<T -> bool>): T -> bool
  {
    x => Passes(filter, x)
  }

  /** The sequential pipeline `seq.Where(filter).Select(mapper)` the parallel run is measured against. */
  function FilterMap<T, R>(s: seq<T>, filter: Option<T -> bool>, mapper: T -> R): seq<R>
  {
    Keep(s, Accepts(filter), mapper)
  }

  /** A worker's local list after it ran `body` on the indices of `chunk`, in that order. */
  function LocalList<T, R>(s: seq<T>, filter: Option<T -> bool>, mapper: T -> R, chunk: seq<nat>): seq<R>
    requires InBounds(chunk, |s|)
  {
    FilterMap(Gather(s, chunk), filter, mapper)
  }

  /** What `threadAggregation` hands on: the reducer's output when there is a reducer, else the list itself. */
  function Reduced<R>(reducer: Option<seq<R> -> seq<R>>, lista: seq<R>): seq<R>
  {
    if reducer.Some? then reducer.value(lista) else lista
  }

  ghost predicate ChunksInBounds(chunks: seq<seq<nat>>, n: nat)
  {
    forall k :: 0 <= k < |chunks| ==> InBounds(chunks[k], n)
  }

  /** Everything the workers add to the bag, worker by worker in the order they finish. */
  function Merged<T, R>(s: seq<T>, filter: Option<T -> bool>, mapper: T -> R,
                        reducer: Option<seq<R> -> seq<R>>, chunks: seq<seq<nat>>): seq<R>
    requires ChunksInBounds(chunks, |s|)
  {
    if chunks == [] then []
    else
      var last := |chunks| - 1;
      Merged(s, filter, mapper, reducer, chunks[..last]) + Reduced(reducer, LocalList(s, filter, mapper, chunks[last]))
  }

  /**
   The loop `body` for index i: returns the same local list, extended at the end by
   `map(seq[i])` exactly when the element passes the filter. `mapper` is taken as a partial
   function defined only on elements that pass, so the body is checked never to apply it to a
   rejected element; `mapApplied` records whether it was invoked.
   */
  method Body<T, R>(s: seq<T>, filter: Option<T -> bool>, mapper: T --> R, i: nat, lista: seq<R>)
    returns (lista': seq<R>, ghost mapApplied: bool)
    requires i < |s|
    requires forall x :: Passes(filter, x) ==> mapper.requires(x)
    ensures |lista| <= |lista'| <= |lista| + 1
    ensures lista'[..|lista|] == lista
    ensures |lista'| == |lista| + 1 <==> Passes(filter, s[i])
    ensures Passes(filter, s[i]) ==> lista'[|lista|] == mapper(s[i])
    ensures mapApplied <==> Passes(filter, s[i])
  {
    var elemento := s[i];
    lista', mapApplied := lista, false;
    if filter.Some? {
      var condition := filter.value(elemento);
      if condition {
        var transformed := mapper(elemento);
        mapApplied := true;
        lista' := lista' + [transformed];
      }
    } else {
      var transformed := mapper(elemento);
      mapApplied := true;
      lista' := lista' + [transformed];
    }
  }

  /** One worker's loop: from `threadInit`'s empty list, `body` for each index of its chunk. */
  method RunWorker<T, R>(s: seq<T>, filter: Option<T -> bool>, mapper: T -> R, chunk: seq<nat>)
    returns (lista: seq<R>)
    requires InBounds(chunk, |s|)
    ensures lista == LocalList(s, filter, mapper, chunk)
  {
    lista := [];
    for j := 0 to |chunk|
      invariant lista == LocalList(s, filter, mapper, chunk[..j])
    {
      ghost var mapApplied;
      var before := lista;
      lista, mapApplied := Body(s, filter, mapper, chunk[j], lista);
      assert lista == before + (if Passes(filter, s[chunk[j]]) then [mapper(s[chunk[j]])] else []);
      LocalListStep(s, filter, mapper, chunk, j);
    }
    assert chunk[..|chunk|] == chunk;
  }

  lemma LocalListStep<T, R>(s: seq<T>, filter: Option<T -> bool>, mapper: T -> R, chunk: seq<nat>, j: nat)
    requires InBounds(chunk, |s|) && j < |chunk|
    ensures LocalList(s, filter, mapper, chunk[..j + 1])
         == LocalList(s, filter, mapper, chunk[..j])
            + (if Passes(filter, s[chunk[j]]) then [mapper(s[chunk[j]])] else [])
  {
    var x := s[chunk[j]];
    assert chunk[..j + 1] == chunk[..j] + [chunk[j]];
    GatherAppend(s, chunk[..j], [chunk[j]]);
    assert Gather(s, [chunk[j]]) == [x];
    KeepAppend(Gather(s, chunk[..j]), [x], Accepts(filter), mapper);
    KeepSingle(x, Accepts(filter), mapper);
  }

  /**
   `threadAggregation`: the reducer, if any, runs once on the whole local list, and every
   value of its output (or of the list itself) is added to the bag; nothing else is added.
   */
  method ThreadAggregation<R>(reducer: Option<seq<R> -> seq<R>>, lista: seq<R>, results: multiset<R>)
    returns (results': multiset<R>)
    ensures results' == results + multiset(Reduced(reducer, lista))
    ensures reducer.None? ==> results' == results + multiset(lista)
  {
    var reducedList := lista;
    if reducer.Some? {
      reducedList := reducer.value(lista);
    }
    results' := results;
    for j := 0 to |reducedList|
      invariant results' == results + multiset(reducedList[..j])
    {
      assert reducedList[..j + 1] == reducedList[..j] + [reducedList[j]];
      results' := results' + multiset{reducedList[j]};
    }
    assert reducedList[..|reducedList|] == reducedList;
  }

  /** `ConcurrentBag.ToList`: the bag's values, each as often as it occurs, in an unspecified order. */
  method ToList<R>(bag: multiset<R>) returns (list: seq<R>)
    ensures multiset(list) == bag
  {
    list := [];
    var rest := bag;
    while rest != multiset{}
      invariant multiset(list) + rest == bag
      decreases |rest|
    {
      var v :| v in rest;
      list := list + [v];
      rest := rest - multiset{v};
    }
  }

  /**
   `MapReduce.Run` under the scheduling `chunks`: the result holds what the workers added,
   and without a reducer the same values, with the same multiplicities, as the sequential
   filter-then-mapper pipeline; an empty input gives an empty list.
   */
  method Run<T, R(==)>(s: seq<T>, filter: Option<T -> bool>, mapper: T -> R,
                   reducer: Option<seq<R> -> seq<R>>, chunks: seq<seq<nat>>)
    returns (result: seq<R>)
    requires IsChunking(chunks, |s|)
    ensures multiset(result) == multiset(Merged(s, filter, mapper, reducer, chunks))
    ensures reducer.None? ==> multiset(result) == multiset(FilterMap(s, filter, mapper))
    ensures |s| == 0 ==> result == []
  {
    var results: multiset<R> := multiset{};
    assert ChunksInBounds(chunks, |s|);
    for k := 0 to |chunks|
      invariant ChunksInBounds(chunks[..k], |s|)
      invariant results == multiset(Merged(s, filter, mapper, reducer, chunks[..k]))
    {
      var lista := RunWorker(s, filter, mapper, chunks[k]);
      results := ThreadAggregation(reducer, lista, results);
      MergedStep(s, filter, mapper, reducer, chunks, k);
    }
    assert chunks[..|chunks|] == chunks;
    result := ToList(results);
    if reducer.None? {
      NoReducerMatchesSequential(s, filter, mapper, chunks);
    }
    if |s| == 0 {
      EmptyRangeNoChunks(chunks);
    }
  }

  lemma MergedStep<T, R>(s: seq<T>, filter: Option<T -> bool>, mapper: T -> R,
                         reducer: Option<seq<R> -> seq<R>>, chunks: seq<seq<nat>>, k: nat)
    requires ChunksInBounds(chunks, |s|) && k < |chunks|
    ensures ChunksInBounds(chunks[..k], |s|) && ChunksInBounds(chunks[..k + 1], |s|)
    ensures Merged(s, filter, mapper, reducer, chunks[..k + 1])
         == Merged(s, filter, mapper, reducer, chunks[..k]) + Reduced(reducer, LocalList(s, filter, mapper, chunks[k]))
  {
    assert chunks[..k + 1][..k] == chunks[..k];
    assert chunks[..k + 1][k] == chunks[k];
  }

  /** Without a reducer, the workers together add exactly the images of the accepted elements they visited. */
  lemma {:induction false} MergedWithoutReducer<T, R>(s: seq<T>, filter: Option<T -> bool>, mapper: T -> R,
                                                     chunks: seq<seq<nat>>)
    requires ChunksInBounds(chunks, |s|)
    ensures InBounds(Flatten(chunks), |s|)
    ensures Merged(s, filter, mapper, None, chunks) == FilterMap(Gather(s, Flatten(chunks)), filter, mapper)
    decreases |chunks|
  {
    FlattenInBounds(chunks, |s|);
    if chunks != [] {
      var last := |chunks| - 1;
      var init, c := chunks[..last], chunks[last];
      MergedWithoutReducer(s, filter, mapper, init);
      assert chunks == init + [c];
      FlattenAppend(init, [c]);
      assert Flatten([c]) == c;
      GatherAppend(s, Flatten(init), c);
      KeepAppend(Gather(s, Flatten(init)), Gather(s, c), Accepts(filter), mapper);
    }
  }

  /**
   The key theorem: with no reducer, for every chunking and every order in which the
   workers finish, the collected values are, as a multiset, those of the sequential
   filter-then-mapper pipeline.
   */
  lemma NoReducerMatchesSequential<T, R>(s: seq<T>, filter: Option<T -> bool>, mapper: T -> R,
                                         chunks: seq<seq<nat>>)
    requires IsChunking(chunks, |s|)
    ensures multiset(Merged(s, filter, mapper, None, chunks)) == multiset(FilterMap(s, filter, mapper))
  {
    MergedWithoutReducer(s, filter, mapper, chunks);
    GatherReorders(s, Flatten(chunks));
    KeepPermutation(Gather(s, Flatten(chunks)), s, Accepts(filter), mapper);
  }

  /** A value is collected (without a reducer) iff it is the image of an element of the input that passes the filter. */
  lemma CollectedIff<T, R>(s: seq<T>, filter: Option<T -> bool>, mapper: T -> R, chunks: seq<seq<nat>>, y: R)
    requires IsChunking(chunks, |s|)
    ensures y in Merged(s, filter, mapper, None, chunks)
        <==> exists i :: 0 <= i < |s| && Passes(filter, s[i]) && mapper(s[i]) == y
  {
    NoReducerMatchesSequential(s, filter, mapper, chunks);
    assert y in Merged(s, filter, mapper, None, chunks) <==> y in multiset(FilterMap(s, filter, mapper));
    KeepMember(s, Accepts(filter), mapper, y);
  }

  /** n copies of x. */
  function Repeat<R>(x: R, n: nat): (r: seq<R>)
    ensures |r| == n
    ensures forall i :: 0 <= i < n ==> r[i] == x
  {
    if n == 0 then [] else [x] + Repeat(x, n - 1)
  }

  /** The reducer `lista => lista + [sentinel]`. */
  function AppendSentinel<R>(sentinel: R): seq<R> -> seq<R>
  {
    l => l + [sentinel]
  }

  /** One worker's step of SentinelPerWorker, on plain sequences. */
  lemma SentinelStep<R>(rest: seq<R>, plain: seq<R>, repeated: seq<R>, local: seq<R>, sentinel: R)
    requires multiset(rest) == multiset(plain) + multiset(repeated)
    ensures multiset(rest + (local + [sentinel])) == multiset(plain + local) + multiset([sentinel] + repeated)
  {
    calc {
      multiset(rest + (local + [sentinel]));
      multiset(plain) + multiset(repeated) + multiset(local) + multiset{sentinel};
      (multiset(plain) + multiset(local)) + (multiset{sentinel} + multiset(repeated));
      multiset(plain + local) + multiset([sentinel] + repeated);
    }
  }

  /**
   With a reducer, each worker's reducer output reaches the bag exactly once: a reducer that
   appends one sentinel value to every local list leaves one sentinel per worker on top of
   what the workers collected without it.
   */
  lemma {:induction false} SentinelPerWorker<T, R>(s: seq<T>, filter: Option<T -> bool>, mapper: T -> R,
                                                  chunks: seq<seq<nat>>, sentinel: R)
    requires ChunksInBounds(chunks, |s|)
    ensures multiset(Merged(s, filter, mapper, Some(AppendSentinel(sentinel)), chunks))
         == multiset(Merged(s, filter, mapper, None, chunks)) + multiset(Repeat(sentinel, |chunks|))
    decreases |chunks|
  {
    if chunks != [] {
      var last := |chunks| - 1;
      var init := chunks[..last];
      SentinelPerWorker(s, filter, mapper, init, sentinel);
      var withSentinel: Option<seq<R> -> seq<R>> := Some(AppendSentinel(sentinel));
      var local := LocalList(s, filter, mapper, chunks[last]);
      var rest := Merged(s, filter, mapper, withSentinel, init);
      var plain := Merged(s, filter, mapper, None, init);
      assert Reduced(withSentinel, local) == local + [sentinel];
      assert Merged(s, filter, mapper, withSentinel, chunks) == rest + (local + [sentinel]);
      assert Merged(s, filter, mapper, None, chunks) == plain + local;
      assert Repeat(sentinel, |chunks|) == [sentinel] + Repeat(sentinel, |init|);
      SentinelStep(rest, plain, Repeat(sentinel, |init|), local, sentinel);
    }
  }
}
