/**
 Sequence helpers shared by every component: index ranges, gathering elements by index,
 flattening chunked work, the generic filter-and-transform `Keep`, and sortedness.
 */
module Sequences {

  /** The index range [0, n) in increasing order. */
  function Indices(n: nat): (r: seq<nat>)
    ensures |r| == n
    ensures forall i :: 0 <= i < n ==> r[i] == i
  {
    seq(n, i requires 0 <= i => i as nat)
  }

  /** `Enumerable.Range(start, count)`: the integers start, start + 1, ..., start + count - 1. */
  function Range(start: int, count: nat): (r: seq<int>)
    ensures |r| == count
    ensures forall i :: 0 <= i < count ==> r[i] == start + i
  {
    seq(count, i => start + i)
  }

  /** Every index in `idx` is a valid position of a sequence of length n. */
  ghost predicate InBounds(idx: seq<nat>, n: nat)
  {
    forall j :: 0 <= j < |idx| ==> idx[j] < n
  }

  /** The elements of `s` at the positions `idx`, in the order of `idx`. */
  function Gather<T>(s: seq<T>, idx: seq<nat>): (r: seq<T>)
    requires InBounds(idx, |s|)
    ensures |r| == |idx|
    ensures forall j :: 0 <= j < |idx| ==> r[j] == s[idx[j]]
  {
    seq(|idx|, j requires 0 <= j < |idx| => s[idx[j]])
  }

  /** Concatenation of a sequence of sequences. */
  function Flatten<T>(ss: seq<seq<T>>): seq<T>
  {
    if ss == [] then [] else ss[0] + Flatten(ss[1..])
  }

  /** The images under `g` of the elements of `s` that satisfy `p`, in the order of `s`. */
  function Keep<X, Y>(s: seq<X>, p: X -> bool, g: X -> Y): seq<Y>
  {
    if s == [] then [] else (if p(s[0]) then [g(s[0])] else []) + Keep(s[1..], p, g)
  }

  ghost predicate Sorted(s: seq<int>)
  {
    forall i, j :: 0 <= i < j < |s| ==> s[i] <= s[j]
  }

  lemma GatherAppend<T>(s: seq<T>, a: seq<nat>, b: seq<nat>)
    requires InBounds(a, |s|) && InBounds(b, |s|)
    ensures InBounds(a + b, |s|)
    ensures Gather(s, a + b) == Gather(s, a) + Gather(s, b)
  {
  }

  lemma GatherIndices<T>(s: seq<T>)
    ensures InBounds(Indices(|s|), |s|)
    ensures Gather(s, Indices(|s|)) == s
  {
  }

  /** Splits `b` around one occurrence of `x`. */
  lemma Split<T>(b: seq<T>, x: T) returns (k: nat)
    requires x in multiset(b)
    ensures k < |b| && b[k] == x
    ensures b == b[..k] + [x] + b[k + 1..]
  {
    assert x in b;
    k :| 0 <= k < |b| && b[k] == x;
    assert b == b[..k] + [b[k]] + b[k + 1..];
  }

  lemma MultisetRemove<T>(a: seq<T>, b: seq<T>, k: nat)
    requires |a| > 0 && k < |b| && b[k] == a[0]
    requires multiset(a) == multiset(b)
    ensures multiset(a[1..]) == multiset(b[..k] + b[k + 1..])
  {
    assert a == [a[0]] + a[1..];
    assert b == b[..k] + [b[k]] + b[k + 1..];
    calc {
      multiset(a[1..]);
      multiset(a) - multiset{a[0]};
      multiset(b) - multiset{b[k]};
      multiset(b[..k]) + multiset(b[k + 1..]);
      multiset(b[..k] + b[k + 1..]);
    }
  }

  /** Removing one index from the middle removes its element from the gathered multiset. */
  lemma GatherAround<T>(s: seq<T>, left: seq<nat>, x: nat, right: seq<nat>)
    requires InBounds(left, |s|) && x < |s| && InBounds(right, |s|)
    ensures InBounds(left + [x] + right, |s|) && InBounds(left + right, |s|)
    ensures multiset(Gather(s, left + [x] + right)) == multiset(Gather(s, left + right)) + multiset{s[x]}
  {
    GatherAppend(s, left, [x]);
    GatherAppend(s, left + [x], right);
    GatherAppend(s, left, right);
    assert Gather(s, [x]) == [s[x]];
  }

  /** Gathering by two index sequences that are permutations of each other gives permuted results. */
  lemma {:induction false} GatherPermutation<T>(s: seq<T>, a: seq<nat>, b: seq<nat>)
    requires InBounds(a, |s|) && InBounds(b, |s|)
    requires multiset(a) == multiset(b)
    ensures multiset(Gather(s, a)) == multiset(Gather(s, b))
    decreases |a|
  {
    if a == [] {
      assert |b| == |multiset(b)| == 0;
    } else {
      var k := Split(b, a[0]);
      var left, right := b[..k], b[k + 1..];
      MultisetRemove(a, b, k);
      GatherAround(s, left, a[0], right);
      GatherPermutation(s, a[1..], left + right);
      calc {
        multiset(Gather(s, a));
        { assert Gather(s, a) == [s[a[0]]] + Gather(s, a[1..]); }
        multiset{s[a[0]]} + multiset(Gather(s, a[1..]));
        multiset(Gather(s, b));
      }
    }
  }

  /** Gathering by any permutation of [0, |s|) yields a permutation of `s`. */
  lemma GatherReorders<T>(s: seq<T>, order: seq<nat>)
    requires InBounds(order, |s|)
    requires multiset(order) == multiset(Indices(|s|))
    ensures multiset(Gather(s, order)) == multiset(s)
  {
    GatherIndices(s);
    GatherPermutation(s, order, Indices(|s|));
  }

  lemma {:induction false} FlattenAppend<T>(a: seq<seq<T>>, b: seq<seq<T>>)
    ensures Flatten(a + b) == Flatten(a) + Flatten(b)
    decreases |a|
  {
    if a == [] {
      assert a + b == b;
    } else {
      assert (a + b)[1..] == a[1..] + b;
      FlattenAppend(a[1..], b);
    }
  }

  /** Taking one chunk out of the middle takes its elements out of the flattened multiset. */
  lemma FlattenAround<T>(left: seq<seq<T>>, x: seq<T>, right: seq<seq<T>>)
    ensures multiset(Flatten(left + [x] + right)) == multiset(x) + multiset(Flatten(left + right))
  {
    FlattenAppend(left + [x], right);
    FlattenAppend(left, [x]);
    FlattenAppend(left, right);
    assert Flatten([x]) == x;
  }

  lemma {:induction false} FlattenPermutation<T>(a: seq<seq<T>>, b: seq<seq<T>>)
    requires multiset(a) == multiset(b)
    ensures multiset(Flatten(a)) == multiset(Flatten(b))
    decreases |a|
  {
    if a == [] {
      assert |b| == |multiset(b)| == 0;
    } else {
      var k := Split(b, a[0]);
      var left, right := b[..k], b[k + 1..];
      MultisetRemove(a, b, k);
      FlattenPermutation(a[1..], left + right);
      calc {
        multiset(Flatten(a));
        multiset(a[0] + Flatten(a[1..]));
        multiset(a[0]) + multiset(Flatten(left + right));
        { FlattenAround(left, a[0], right); }
        multiset(Flatten(b));
      }
    }
  }

  lemma {:induction false} KeepAppend<X, Y>(a: seq<X>, b: seq<X>, p: X -> bool, g: X -> Y)
    ensures Keep(a + b, p, g) == Keep(a, p, g) + Keep(b, p, g)
    decreases |a|
  {
    if a == [] {
      assert a + b == b;
    } else {
      var head := if p(a[0]) then [g(a[0])] else [];
      assert (a + b)[0] == a[0];
      assert (a + b)[1..] == a[1..] + b;
      calc {
        Keep(a + b, p, g);
        head + Keep(a[1..] + b, p, g);
        { KeepAppend(a[1..], b, p, g); }
        head + (Keep(a[1..], p, g) + Keep(b, p, g));
        (head + Keep(a[1..], p, g)) + Keep(b, p, g);
        Keep(a, p, g) + Keep(b, p, g);
      }
    }
  }

  lemma KeepSingle<X, Y>(x: X, p: X -> bool, g: X -> Y)
    ensures Keep([x], p, g) == if p(x) then [g(x)] else []
  {
    assert [x][1..] == [];
  }

  /** Taking one element out of the middle takes its contribution out of `Keep`'s multiset. */
  lemma KeepAround<X, Y>(left: seq<X>, x: X, right: seq<X>, p: X -> bool, g: X -> Y)
    ensures multiset(Keep(left + [x] + right, p, g)) == multiset(Keep([x], p, g)) + multiset(Keep(left + right, p, g))
  {
    KeepAppend(left + [x], right, p, g);
    KeepAppend(left, [x], p, g);
    KeepAppend(left, right, p, g);
  }

  /** `Keep` depends only on the multiset of its input, not on its order. */
  lemma {:induction false} KeepPermutation<X, Y>(a: seq<X>, b: seq<X>, p: X -> bool, g: X -> Y)
    requires multiset(a) == multiset(b)
    ensures multiset(Keep(a, p, g)) == multiset(Keep(b, p, g))
    decreases |a|
  {
    if a == [] {
      assert |b| == |multiset(b)| == 0;
    } else {
      var k := Split(b, a[0]);
      var left, right := b[..k], b[k + 1..];
      MultisetRemove(a, b, k);
      KeepPermutation(a[1..], left + right, p, g);
      calc {
        multiset(Keep(a, p, g));
        { KeepSingle(a[0], p, g); }
        multiset(Keep([a[0]], p, g) + Keep(a[1..], p, g));
        multiset(Keep([a[0]], p, g)) + multiset(Keep(left + right, p, g));
        { KeepAround(left, a[0], right, p, g); }
        multiset(Keep(b, p, g));
      }
    }
  }

  lemma {:induction false} KeepLength<X, Y>(s: seq<X>, p: X -> bool, g: X -> Y)
    ensures |Keep(s, p, g)| <= |s|
    decreases |s|
  {
    if s != [] {
      KeepLength(s[1..], p, g);
    }
  }

  /** y is kept iff it is the image of some element of `s` that satisfies `p`. */
  lemma {:induction false} KeepMember<X, Y>(s: seq<X>, p: X -> bool, g: X -> Y, y: Y)
    ensures y in Keep(s, p, g) <==> exists i :: 0 <= i < |s| && p(s[i]) && g(s[i]) == y
    decreases |s|
  {
    if s != [] {
      KeepMember(s[1..], p, g, y);
      if exists i :: 0 <= i < |s| && p(s[i]) && g(s[i]) == y {
        var i :| 0 <= i < |s| && p(s[i]) && g(s[i]) == y;
        if i > 0 {
          assert s[1..][i - 1] == s[i];
        }
      }
      if y in Keep(s[1..], p, g) {
        var i :| 0 <= i < |s[1..]| && p(s[1..][i]) && g(s[1..][i]) == y;
        assert s[i + 1] == s[1..][i];
      }
    }
  }

  lemma SortedTail(a: seq<int>)
    requires Sorted(a) && |a| > 0
    ensures Sorted(a[1..])
  {
    forall m, n | 0 <= m < n < |a[1..]| ensures a[1..][m] <= a[1..][n] {
      assert a[1..][m] == a[m + 1] && a[1..][n] == a[n + 1];
    }
  }

  lemma SortedHeadIsLeast(a: seq<int>, x: int)
    requires Sorted(a) && x in multiset(a)
    ensures |a| > 0 && a[0] <= x
  {
    var k := Split(a, x);
    if k > 0 {
      assert a[0] <= a[k];
    }
  }

  lemma Tail<T>(a: seq<T>)
    requires |a| > 0
    ensures multiset(a[1..]) == multiset(a) - multiset{a[0]}
  {
    assert a == [a[0]] + a[1..];
  }

  /** Two sorted sequences with the same elements start with the same (least) element. */
  lemma SortedSameHead(a: seq<int>, b: seq<int>)
    requires Sorted(a) && Sorted(b) && |a| > 0
    requires multiset(a) == multiset(b)
    ensures |b| > 0 && a[0] == b[0]
  {
    assert a[0] in multiset(a);
    SortedHeadIsLeast(b, a[0]);
    assert b[0] in multiset(b);
    SortedHeadIsLeast(a, b[0]);
  }

  /** Two sorted sequences with the same elements are equal: the result of sorting depends only on the multiset. */
  lemma {:induction false} SortedUnique(a: seq<int>, b: seq<int>)
    requires Sorted(a) && Sorted(b)
    requires multiset(a) == multiset(b)
    ensures a == b
    decreases |a|
  {
    if a == [] {
      assert |b| == |multiset(b)| == 0;
    } else {
      SortedSameHead(a, b);
      Tail(a);
      Tail(b);
      SortedTail(a);
      SortedTail(b);
      SortedUnique(a[1..], b[1..]);
      calc {
        a;
        [a[0]] + a[1..];
        [b[0]] + b[1..];
        b;
      }
    }
  }
}
