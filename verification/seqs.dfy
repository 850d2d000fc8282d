/** Facts about sequences shared by the aggregation modules: distinctness,
    first occurrences, first-match lookup and counting by multiplicity. */
module Seqs {
  import opened Wrappers

  ghost predicate Distinct<T>(s: seq<T>) {
    forall i, j :: 0 <= i < j < |s| ==> s[i] != s[j]
  }

  /** Position of the first occurrence of `x` in `s`, or `|s|` when `x` does not occur. */
  function FirstIndex<T(==)>(s: seq<T>, x: T): (i: nat)
    ensures i <= |s|
    ensures i < |s| <==> x in s
    ensures i < |s| ==> s[i] == x
  {
    if |s| == 0 then 0
    else if s[0] == x then 0
    else 1 + FirstIndex(s[1..], x)
  }

  /** Appending to a sequence does not move the first occurrence of anything already in it,
      and a new element first occurs at the old length. */
  lemma {:induction false} FirstIndexAppend<T>(s: seq<T>, y: T, x: T)
    ensures x in s ==> FirstIndex(s + [y], x) == FirstIndex(s, x)
    ensures x !in s && x == y ==> FirstIndex(s + [y], x) == |s|
  {
    if |s| > 0 {
      assert (s + [y])[1..] == s[1..] + [y];
      FirstIndexAppend(s[1..], y, x);
    }
  }

  /** In a sequence without repetitions each element has multiplicity at most one. */
  lemma {:induction false} DistinctMultiplicity<T>(s: seq<T>)
    requires Distinct(s)
    ensures forall x :: multiset(s)[x] <= 1
  {
    if |s| > 0 {
      assert s == [s[0]] + s[1..];
      DistinctMultiplicity(s[1..]);
      assert s[0] !in s[1..];
    }
  }

  /** An element found at two different positions has multiplicity at least two. */
  lemma RepeatMultiplicity<T>(s: seq<T>, i: nat, j: nat)
    requires i < j < |s|
    ensures s[i] == s[j] ==> multiset(s)[s[i]] >= 2
  {
    assert s == s[..j] + s[j..];
    assert s[i] in multiset(s[..j]);
    assert s[j] in multiset(s[j..]);
  }

  /** A permutation of a sequence without repetitions has none either. */
  lemma DistinctPermutation<T>(a: seq<T>, b: seq<T>)
    requires multiset(a) == multiset(b)
    requires Distinct(a)
    ensures Distinct(b)
  {
    DistinctMultiplicity(a);
    forall i, j | 0 <= i < j < |b|
      ensures b[i] != b[j]
    {
      RepeatMultiplicity(b, i, j);
    }
  }

  /** The ids of the elements of `s`, in order. */
  function Project<T>(s: seq<T>, idOf: T -> int): (r: seq<int>)
    ensures |r| == |s|
    ensures forall i :: 0 <= i < |s| ==> r[i] == idOf(s[i])
  {
    seq(|s|, i requires 0 <= i < |s| => idOf(s[i]))
  }

  /** JavaScript's `s.find(e => idOf(e) === id)`: the element at the first position whose id
      is `id`, and `None` (`undefined`) when no element has that id. */
  function FindBy<T>(s: seq<T>, idOf: T -> int, id: int): (r: Option<T>)
    ensures r.None? <==> id !in Project(s, idOf)
    ensures r.Some? ==> FirstIndex(Project(s, idOf), id) < |s| &&
                        r.value == s[FirstIndex(Project(s, idOf), id)]
  {
    if |s| == 0 then None
    else if idOf(s[0]) == id then Some(s[0])
    else
      ProjectSkip(s, idOf, id);
      FindBy(s[1..], idOf, id)
  }

  /** Past a first element without the id, the search goes on in the rest, one position on. */
  lemma ProjectSkip<T>(s: seq<T>, idOf: T -> int, id: int)
    requires |s| > 0 && idOf(s[0]) != id
    ensures id in Project(s, idOf) <==> id in Project(s[1..], idOf)
    ensures FirstIndex(Project(s, idOf), id) == 1 + FirstIndex(Project(s[1..], idOf), id)
  {
    assert Project(s, idOf) == [idOf(s[0])] + Project(s[1..], idOf);
    assert Project(s, idOf)[1..] == Project(s[1..], idOf);
  }

  /** How many elements of `s` satisfy `p`. */
  function Count<T>(s: seq<T>, p: T -> bool): nat {
    if |s| == 0 then 0 else (if p(s[0]) then 1 else 0) + Count(s[1..], p)
  }

  /** The multiplicities in `xs` of the elements of `ks`, added up. */
  function SumCounts<T(==)>(ks: seq<T>, xs: seq<T>): nat
  {
    if |ks| == 0 then 0 else multiset(xs)[ks[0]] + SumCounts(ks[1..], xs)
  }

  /** The sizes of the elements of `s`, added up. */
  function SumOf<T>(s: seq<T>, size: T -> nat): nat {
    if |s| == 0 then 0 else size(s[0]) + SumOf(s[1..], size)
  }

  /** When each element's size is how often its key occurs in `xs`, the sizes add up to the
      multiplicities of the keys. */
  lemma {:induction false} SumOfCounts<T, K>(s: seq<T>, keys: seq<K>, size: T -> nat, xs: seq<K>)
    requires |keys| == |s|
    requires forall i :: 0 <= i < |s| ==> size(s[i]) == multiset(xs)[keys[i]]
    ensures SumOf(s, size) == SumCounts(keys, xs)
  {
    if |s| > 0 {
      SumOfCounts(s[1..], keys[1..], size, xs);
    }
  }

  lemma {:induction false} SumCountsEmpty<T>(ks: seq<T>)
    ensures SumCounts(ks, []) == 0
  {
    if |ks| > 0 {
      SumCountsEmpty(ks[1..]);
    }
  }

  lemma {:induction false} SumCountsAppend<T>(ks: seq<T>, xs: seq<T>, x: T)
    requires Distinct(ks)
    ensures SumCounts(ks, xs + [x]) == SumCounts(ks, xs) + (if x in ks then 1 else 0)
  {
    if |ks| > 0 {
      SumCountsAppend(ks[1..], xs, x);
      assert multiset(xs + [x]) == multiset(xs) + multiset{x};
      assert x in ks <==> x == ks[0] || x in ks[1..];
      assert ks[0] !in ks[1..];
    }
  }

  /** Counting every element of `xs` once per distinct key that covers it accounts for all of `xs`. */
  lemma {:induction false} SumCountsCovers<T>(ks: seq<T>, xs: seq<T>)
    requires Distinct(ks)
    requires forall x :: x in xs ==> x in ks
    ensures SumCounts(ks, xs) == |xs|
  {
    if |xs| == 0 {
      SumCountsEmpty(ks);
    } else {
      var init, last := xs[..|xs| - 1], xs[|xs| - 1];
      assert xs == init + [last];
      SumCountsCovers(ks, init);
      SumCountsAppend(ks, init, last);
    }
  }

  /** `ys[i]` is related to `xs[i]` at step `d + i`, for every index. */
  ghost predicate InStep<A, B>(xs: seq<A>, ys: seq<B>, rel: (A, nat, B) -> bool, d: nat) {
    && |xs| == |ys|
    && forall i :: 0 <= i < |xs| ==> rel(xs[i], d + i, ys[i])
  }

  /** A related pair at step `d`, put in front of pairs in step from `d + 1`, is in step from `d`. */
  lemma PrependInStep<A, B>(a: A, b: B, xs: seq<A>, ys: seq<B>, rel: (A, nat, B) -> bool, d: nat)
    requires rel(a, d, b)
    requires InStep(xs, ys, rel, d + 1)
    ensures InStep([a] + xs, [b] + ys, rel, d)
  {
    forall i | 0 < i < |xs| + 1 ensures rel(([a] + xs)[i], d + i, ([b] + ys)[i]) {
      assert ([a] + xs)[i] == xs[i - 1] && ([b] + ys)[i] == ys[i - 1];
      assert d + i == d + 1 + (i - 1);
    }
  }
}
