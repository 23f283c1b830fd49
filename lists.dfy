/** Sequence helpers shared by the pruner, the valuator and the lexicon:
    order-preserving filtering (Python's `list(filter(p, xs))`),
    order-preserving sub-lists, first-occurrence de-duplication (the key
    order of a Python dict built from a list) and first index. */
module Lists {

  /** The elements of `xs` that satisfy `p`, in their original order. */
  function Filter<T(!new)>(xs: seq<T>, p: T -> bool): (ys: seq<T>)
    ensures |ys| <= |xs|
    ensures forall y :: y in ys <==> y in xs && p(y)
  {
    if xs == [] then [] else (if p(xs[0]) then [xs[0]] else []) + Filter(xs[1..], p)
  }

  /** `a` can be obtained from `b` by deleting elements. */
  predicate IsSublist<T(==,!new)>(a: seq<T>, b: seq<T>)
  {
    if a == [] then true
    else if b == [] then false
    else (a[0] == b[0] && IsSublist(a[1..], b[1..])) || IsSublist(a, b[1..])
  }

  predicate NoDups<T(==,!new)>(xs: seq<T>)
  {
    forall i, j :: 0 <= i < j < |xs| ==> xs[i] != xs[j]
  }

  /** Index of the first occurrence of `x` in `xs` (Python's `list.index`). */
  function IndexOf<T(==,!new)>(xs: seq<T>, x: T): (i: nat)
    requires x in xs
    ensures i < |xs| && xs[i] == x && x !in xs[..i]
  {
    if xs[0] == x then 0 else 1 + IndexOf(xs[1..], x)
  }

  /** The distinct elements of `xs`, each at its first occurrence. */
  function Dedup<T(==,!new)>(xs: seq<T>): (ys: seq<T>)
    ensures forall x :: x in ys <==> x in xs
    ensures NoDups(ys)
  {
    if xs == [] then []
    else
      var init, last := xs[..|xs| - 1], xs[|xs| - 1];
      assert xs == init + [last];
      Dedup(init) + (if last in init then [] else [last])
  }

  /** Extending a prefix by one element adds it to the distinct elements
      unless it was already there. */
  lemma DedupStep<T(!new)>(xs: seq<T>, n: nat)
    requires 0 < n <= |xs|
    ensures Dedup(xs[..n]) == Dedup(xs[..n - 1]) + (if xs[n - 1] in xs[..n - 1] then [] else [xs[n - 1]])
  {
    assert xs[..n][..n - 1] == xs[..n - 1];
  }

  lemma {:induction false} SublistLength<T(!new)>(a: seq<T>, b: seq<T>)
    requires IsSublist(a, b)
    ensures |a| <= |b|
  {
    if a != [] {
      if a[0] == b[0] && IsSublist(a[1..], b[1..]) {
        SublistLength(a[1..], b[1..]);
      } else {
        SublistLength(a, b[1..]);
      }
    }
  }

  lemma {:induction false} SublistRefl<T(!new)>(a: seq<T>)
    ensures IsSublist(a, a)
  {
    if a != [] {
      SublistRefl(a[1..]);
    }
  }

  lemma {:induction false} SublistMembers<T(!new)>(a: seq<T>, b: seq<T>, x: T)
    requires IsSublist(a, b) && x in a
    ensures x in b
    decreases |b|
  {
    if a[0] == b[0] && IsSublist(a[1..], b[1..]) {
      if x != a[0] {
        SublistMembers(a[1..], b[1..], x);
      }
    } else {
      SublistMembers(a, b[1..], x);
    }
  }

  lemma {:induction false} SublistTrans<T(!new)>(a: seq<T>, b: seq<T>, c: seq<T>)
    requires IsSublist(a, b) && IsSublist(b, c)
    ensures IsSublist(a, c)
    decreases |c|
  {
    if a != [] {
      if b[0] == c[0] && IsSublist(b[1..], c[1..]) {
        if a[0] == b[0] && IsSublist(a[1..], b[1..]) {
          SublistTrans(a[1..], b[1..], c[1..]);
        } else {
          SublistTrans(a, b[1..], c[1..]);
        }
      } else {
        SublistTrans(a, b, c[1..]);
      }
    }
  }

  lemma {:induction false} FilterIsSublist<T(!new)>(xs: seq<T>, p: T -> bool)
    ensures IsSublist(Filter(xs, p), xs)
  {
    if xs != [] {
      FilterIsSublist(xs[1..], p);
      var f := Filter(xs, p);
      if p(xs[0]) {
        assert f[0] == xs[0] && f[1..] == Filter(xs[1..], p);
      } else if f != [] {
        assert f == Filter(xs[1..], p);
      }
    }
  }

  lemma {:induction false} FilterConcat<T(!new)>(a: seq<T>, b: seq<T>, p: T -> bool)
    ensures Filter(a + b, p) == Filter(a, p) + Filter(b, p)
  {
    if a != [] {
      assert (a + b)[0] == a[0] && (a + b)[1..] == a[1..] + b;
      FilterConcat(a[1..], b, p);
      assert Filter(a, p) == (if p(a[0]) then [a[0]] else []) + Filter(a[1..], p);
    } else {
      assert a + b == b;
    }
  }

  /** Filtering a list one element longer. */
  lemma FilterSnoc<T(!new)>(xs: seq<T>, x: T, p: T -> bool)
    ensures Filter(xs + [x], p) == Filter(xs, p) + (if p(x) then [x] else [])
  {
    FilterConcat(xs, [x], p);
    assert [x][1..] == [];
  }

  /** Filtering out an element that occurs makes the list shorter. */
  lemma {:induction false} FilterShrinks<T(!new)>(xs: seq<T>, p: T -> bool, x: T)
    requires x in xs && !p(x)
    ensures |Filter(xs, p)| < |xs|
  {
    if xs[0] != x {
      FilterShrinks(xs[1..], p, x);
    }
  }

  /** A relation holding between every element and every later one still
      holds after filtering. */
  predicate Pairwise<T(!new)>(xs: seq<T>, rel: (T, T) -> bool)
  {
    forall i, j :: 0 <= i < j < |xs| ==> rel(xs[i], xs[j])
  }

  lemma {:induction false} FilterPairs<T(!new)>(xs: seq<T>, p: T -> bool, rel: (T, T) -> bool)
    requires Pairwise(xs, rel)
    ensures Pairwise(Filter(xs, p), rel)
  {
    if xs != [] {
      var tail := xs[1..];
      PairwiseTail(xs, rel);
      FilterPairs(tail, p, rel);
      var rest := Filter(tail, p);
      if p(xs[0]) {
        forall y | y in rest ensures rel(xs[0], y) {
          var k :| 0 <= k < |tail| && tail[k] == y;
          assert xs[k + 1] == y;
        }
        PairwiseCons(xs[0], rest, rel);
        assert Filter(xs, p) == [xs[0]] + rest;
      } else {
        assert Filter(xs, p) == rest;
      }
    }
  }

  lemma PairwiseTail<T(!new)>(xs: seq<T>, rel: (T, T) -> bool)
    requires xs != [] && Pairwise(xs, rel)
    ensures Pairwise(xs[1..], rel)
  {
    var tail := xs[1..];
    forall i, j | 0 <= i < j < |tail| ensures rel(tail[i], tail[j]) {
      assert tail[i] == xs[i + 1] && tail[j] == xs[j + 1];
    }
  }

  lemma PairwiseCons<T(!new)>(x: T, ys: seq<T>, rel: (T, T) -> bool)
    requires Pairwise(ys, rel) && forall y :: y in ys ==> rel(x, y)
    ensures Pairwise([x] + ys, rel)
  {
    var zs := [x] + ys;
    forall i, j | 0 <= i < j < |zs| ensures rel(zs[i], zs[j]) {
      assert zs[j] == ys[j - 1] && zs[j] in ys;
      if i > 0 {
        assert zs[i] == ys[i - 1];
      }
    }
  }

  lemma {:induction false} FilterNoDups<T(!new)>(xs: seq<T>, p: T -> bool)
    requires NoDups(xs)
    ensures NoDups(Filter(xs, p))
  {
    if xs != [] {
      NoDupsTail(xs);
      FilterNoDups(xs[1..], p);
      var rest := Filter(xs[1..], p);
      if p(xs[0]) {
        var f := [xs[0]] + rest;
        forall i, j | 0 <= i < j < |f| ensures f[i] != f[j] {
          assert f[j] == rest[j - 1] && f[j] in xs[1..];
          if i > 0 {
            assert f[i] == rest[i - 1];
          }
        }
      }
    }
  }

  lemma NoDupsConcat<T(!new)>(a: seq<T>, b: seq<T>)
    requires NoDups(a) && NoDups(b)
    requires forall x :: x in a ==> x !in b
    ensures NoDups(a + b)
  {
    var ab := a + b;
    forall i, j | 0 <= i < j < |ab| ensures ab[i] != ab[j] {
      if j < |a| {
        assert ab[i] == a[i] && ab[j] == a[j];
      } else if i >= |a| {
        assert ab[i] == b[i - |a|] && ab[j] == b[j - |a|];
      } else {
        assert ab[i] == a[i] && ab[j] == b[j - |a|];
        assert a[i] in a;
      }
    }
  }

  lemma {:induction false} FilterFilter<T(!new)>(xs: seq<T>, p: T -> bool, q: T -> bool, r: T -> bool)
    requires forall x :: x in xs ==> r(x) == (p(x) && q(x))
    ensures Filter(Filter(xs, p), q) == Filter(xs, r)
  {
    if xs != [] {
      var rest := Filter(xs[1..], p);
      FilterFilter(xs[1..], p, q, r);
      if p(xs[0]) {
        assert Filter(xs, p) == [xs[0]] + rest;
        FilterConcat([xs[0]], rest, q);
        assert Filter([xs[0]], q) == if q(xs[0]) then [xs[0]] else [];
      } else {
        assert Filter(xs, p) == rest;
      }
    }
  }

  lemma {:induction false} FilterExt<T(!new)>(xs: seq<T>, p: T -> bool, q: T -> bool)
    requires forall x :: x in xs ==> p(x) == q(x)
    ensures Filter(xs, p) == Filter(xs, q)
  {
    if xs != [] {
      FilterExt(xs[1..], p, q);
    }
  }

  /** A test every element passes keeps the whole sequence. */
  lemma {:induction false} FilterKeepsAll<T(!new)>(xs: seq<T>, p: T -> bool)
    requires forall x :: x in xs ==> p(x)
    ensures Filter(xs, p) == xs
  {
    if xs != [] {
      assert xs[0] in xs;
      FilterKeepsAll(xs[1..], p);
    }
  }

  lemma {:induction false} FilterIdempotent<T(!new)>(xs: seq<T>, p: T -> bool)
    ensures Filter(Filter(xs, p), p) == Filter(xs, p)
  {
    FilterFilter(xs, p, p, p);
  }

  /** A stronger test keeps a sub-list of what a weaker test keeps. */
  lemma {:induction false} FilterMono<T(!new)>(xs: seq<T>, p: T -> bool, q: T -> bool)
    requires forall x :: x in xs ==> p(x) ==> q(x)
    ensures IsSublist(Filter(xs, p), Filter(xs, q))
  {
    if xs != [] {
      FilterMono(xs[1..], p, q);
      var fp, fq := Filter(xs, p), Filter(xs, q);
      var rp, rq := Filter(xs[1..], p), Filter(xs[1..], q);
      if p(xs[0]) {
        assert fp == [xs[0]] + rp && fq == [xs[0]] + rq;
        assert fp[1..] == rp && fq[1..] == rq;
      } else if q(xs[0]) {
        assert fp == rp && fq == [xs[0]] + rq;
        assert fq[1..] == rq;
      } else {
        assert fp == rp && fq == rq;
      }
    }
  }

  lemma {:induction false} IndexOfConcat<T(!new)>(a: seq<T>, b: seq<T>, x: T)
    requires x in a + b
    ensures x in a ==> IndexOf(a + b, x) == IndexOf(a, x)
    ensures x !in a ==> IndexOf(a + b, x) == |a| + IndexOf(b, x)
  {
    if a != [] {
      assert (a + b)[1..] == a[1..] + b;
      if a[0] != x {
        IndexOfConcat(a[1..], b, x);
      }
    } else {
      assert a + b == b;
    }
  }

  lemma NoDupsTail<T(!new)>(xs: seq<T>)
    requires xs != [] && NoDups(xs)
    ensures NoDups(xs[1..]) && xs[0] !in xs[1..]
  {
    forall a, b | 0 <= a < b < |xs[1..]| ensures xs[1..][a] != xs[1..][b] {
      assert xs[1..][a] == xs[a + 1] && xs[1..][b] == xs[b + 1];
    }
  }

  /** Filtering a duplicate-free list keeps its elements in their original order. */
  lemma {:induction false} FilterKeepsOrder<T(!new)>(xs: seq<T>, p: T -> bool, i: nat, j: nat)
    requires NoDups(xs)
    requires i < j < |Filter(xs, p)|
    ensures IndexOf(xs, Filter(xs, p)[i]) < IndexOf(xs, Filter(xs, p)[j])
  {
    var f := Filter(xs, p);
    var rest := Filter(xs[1..], p);
    NoDupsTail(xs);
    if p(xs[0]) {
      assert f == [xs[0]] + rest;
      assert f[j] == rest[j - 1] && f[j] in xs[1..];
      assert IndexOf(xs, f[j]) == 1 + IndexOf(xs[1..], f[j]);
      if i > 0 {
        FilterKeepsOrder(xs[1..], p, i - 1, j - 1);
        assert f[i] == rest[i - 1] && f[i] in xs[1..];
        assert IndexOf(xs, f[i]) == 1 + IndexOf(xs[1..], f[i]);
      }
    } else {
      assert f == rest;
      FilterKeepsOrder(xs[1..], p, i, j);
      assert f[i] in xs[1..] && f[j] in xs[1..];
      assert IndexOf(xs, f[i]) == 1 + IndexOf(xs[1..], f[i]);
      assert IndexOf(xs, f[j]) == 1 + IndexOf(xs[1..], f[j]);
    }
  }

  /** De-duplication keeps first occurrences in their original order. */
  lemma {:induction false} DedupKeepsOrder<T(!new)>(xs: seq<T>, a: T, b: T)
    requires a in xs && b in xs
    requires IndexOf(xs, a) < IndexOf(xs, b)
    ensures IndexOf(Dedup(xs), a) < IndexOf(Dedup(xs), b)
  {
    var init, last := xs[..|xs| - 1], xs[|xs| - 1];
    assert xs == init + [last];
    var d := Dedup(init);
    assert a in init by {
      assert xs[IndexOf(xs, a)] == a;
    }
    IndexOfConcat(init, [last], a);
    IndexOfConcat(d, if last in init then [] else [last], a);
    if b in init {
      IndexOfConcat(init, [last], b);
      IndexOfConcat(d, if last in init then [] else [last], b);
      DedupKeepsOrder(init, a, b);
    } else {
      IndexOfConcat(d, if last in init then [] else [last], b);
    }
  }
}
