/** Sequence helpers: filtering, summing and an insertion sort by an
    integer key (the model's `ORDER BY` and its ordering of integer-like object keys). */
module Seqs {

  /** `s.filter(p)`. */
  function Filter<T>(s: seq<T>, p: T -> bool): (r: seq<T>)
    ensures |r| <= |s|
    ensures forall i :: 0 <= i < |r| ==> r[i] in s
    ensures forall i :: 0 <= i < |s| && p(s[i]) ==> s[i] in r
    ensures forall i :: 0 <= i < |r| ==> p(r[i])
  {
    if |s| == 0 then []
    else if p(s[0]) then [s[0]] + Filter(s[1..], p)
    else Filter(s[1..], p)
  }

  /** Filtering by a predicate and by its complement splits the elements between them. */
  lemma {:induction false} FilterSplit<T>(s: seq<T>, p: T -> bool, q: T -> bool)
    requires forall i :: 0 <= i < |s| ==> q(s[i]) == !p(s[i])
    ensures multiset(Filter(s, p)) + multiset(Filter(s, q)) == multiset(s)
    decreases |s|
  {
    if |s| > 0 {
      assert s == [s[0]] + s[1..];
      FilterSplit(s[1..], p, q);
    }
  }

  lemma {:induction false} FilterConcat<T>(a: seq<T>, b: seq<T>, p: T -> bool)
    ensures Filter(a + b, p) == Filter(a, p) + Filter(b, p)
    decreases |a|
  {
    if |a| == 0 {
      assert a + b == b;
    } else {
      assert (a + b)[1..] == a[1..] + b;
      FilterConcat(a[1..], b, p);
    }
  }

  /** A filter keeps each element at most as often as the input has it. */
  lemma {:induction false} FilterSubMultiset<T>(s: seq<T>, p: T -> bool)
    ensures multiset(Filter(s, p)) <= multiset(s)
    decreases |s|
  {
    if |s| > 0 {
      FilterSubMultiset(s[1..], p);
      assert s == [s[0]] + s[1..];
    }
  }

  /** `s.map(f)`. */
  function Map<T, U>(s: seq<T>, f: T -> U): (r: seq<U>)
    ensures |r| == |s|
    ensures forall i :: 0 <= i < |s| ==> r[i] == f(s[i])
  {
    if |s| == 0 then [] else [f(s[0])] + Map(s[1..], f)
  }

  /** `s.forEach(x => { a = step(a, x) })`: a left fold. */
  function FoldLeft<A, T>(s: seq<T>, step: (A, T) -> A, a: A): A
    decreases |s|
  {
    if |s| == 0 then a else FoldLeft(s[1..], step, step(a, s[0]))
  }

  /** A fold whose every step extends `spec` by one element computes `spec`
      of everything it has seen. */
  lemma {:induction false} FoldLeftSpec<A, T>(done: seq<T>, rest: seq<T>, step: (A, T) -> A, spec: seq<T> -> A)
    requires forall d, x :: step(spec(d), x) == spec(d + [x])
    ensures FoldLeft(rest, step, spec(done)) == spec(done + rest)
    decreases |rest|
  {
    if |rest| == 0 {
      assert done + rest == done;
    } else {
      FoldLeftSpec(done + [rest[0]], rest[1..], step, spec);
      assert (done + [rest[0]]) + rest[1..] == done + rest;
    }
  }

  /** A fold whose every step only appends keeps its start as a prefix. */
  lemma {:induction false} FoldLeftExtends<T, U>(s: seq<T>, step: (seq<U>, T) -> seq<U>, a: seq<U>)
    requires forall b, x :: |b| <= |step(b, x)| && step(b, x)[..|b|] == b
    ensures |a| <= |FoldLeft(s, step, a)| && FoldLeft(s, step, a)[..|a|] == a
    decreases |s|
  {
    if |s| > 0 {
      var next := step(a, s[0]);
      FoldLeftExtends(s[1..], step, next);
      var r := FoldLeft(s, step, a);
      assert r[..|a|] == r[..|next|][..|a|];
    }
  }

  function Sum(s: seq<int>): int {
    if |s| == 0 then 0 else s[0] + Sum(s[1..])
  }

  lemma {:induction false} SumConcat(a: seq<int>, b: seq<int>)
    ensures Sum(a + b) == Sum(a) + Sum(b)
    decreases |a|
  {
    if |a| == 0 {
      assert a + b == b;
    } else {
      assert (a + b)[1..] == a[1..] + b;
      SumConcat(a[1..], b);
    }
  }

  /** The first `n` elements, or all of them (SQL's `LIMIT n`). */
  function Take<T>(s: seq<T>, n: nat): (r: seq<T>)
    ensures |r| == if n < |s| then n else |s|
    ensures r == s[..|r|]
  {
    if n < |s| then s[..n] else s
  }

  ghost predicate SortedBy<T>(s: seq<T>, key: T -> int) {
    forall i, j :: 0 <= i < j < |s| ==> key(s[i]) <= key(s[j])
  }

  ghost predicate AllAtLeast<T>(s: seq<T>, key: T -> int, k: int) {
    forall i :: 0 <= i < |s| ==> k <= key(s[i])
  }

  /** Inserts `x` before the first element whose key is not smaller. */
  function Insert<T>(x: T, s: seq<T>, key: T -> int): (r: seq<T>)
    requires SortedBy(s, key)
    ensures SortedBy(r, key)
    ensures multiset(r) == multiset(s) + multiset{x}
    ensures |r| == |s| + 1
    ensures forall k :: AllAtLeast(s, key, k) && k <= key(x) ==> AllAtLeast(r, key, k)
  {
    if |s| == 0 then [x]
    else if key(x) <= key(s[0]) then [x] + s
    else
      var tail := Insert(x, s[1..], key);
      assert s == [s[0]] + s[1..];
      assert AllAtLeast(s[1..], key, key(s[0]));
      ConsSorted(s[0], tail, key);
      [s[0]] + tail
  }

  /** A head no larger than every element of a sorted tail keeps it sorted. */
  lemma ConsSorted<T>(h: T, t: seq<T>, key: T -> int)
    requires SortedBy(t, key) && AllAtLeast(t, key, key(h))
    ensures SortedBy([h] + t, key)
    ensures forall k :: k <= key(h) ==> AllAtLeast([h] + t, key, k)
  {
    var r := [h] + t;
    forall i, j | 0 <= i < j < |r| ensures key(r[i]) <= key(r[j]) {
      assert r[j] == t[j - 1];
      if i > 0 {
        assert r[i] == t[i - 1];
      }
    }
  }

  /** Sorts `s` by `key` (an insertion sort). */
  function SortBy<T>(s: seq<T>, key: T -> int): (r: seq<T>)
    ensures SortedBy(r, key)
    ensures multiset(r) == multiset(s)
    ensures |r| == |s|
  {
    if |s| == 0 then []
    else
      assert s == [s[0]] + s[1..];
      Insert(s[0], SortBy(s[1..], key), key)
  }
}
