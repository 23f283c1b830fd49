/** Ordering a Python dict by value, largest first: `flip_dictionary`
    groups the keys by value (each group in key order), the values are
    visited as `reversed(sorted(...))`, and the groups are concatenated.
    A dict is modelled as its keys in insertion order plus a map. */
module Ranking {
  import opened Lists

  /** The test "this key has value `v`". */
  function HasValue<K(!new)>(vals: map<K, int>, v: int): K -> bool
  {
    k => k in vals && vals[k] == v
  }

  /** The flipped dict built key by key, as the loop of `flip_dictionary`
      builds it. */
  function FlipOf<K(!new)>(keys: seq<K>, vals: map<K, int>): map<int, seq<K>>
    requires forall k :: k in keys ==> k in vals
  {
    if keys == [] then map[]
    else
      var f, key := FlipOf(keys[..|keys| - 1], vals), keys[|keys| - 1];
      var v := vals[key];
      f[v := (if v in f then f[v] else []) + [key]]
  }

  /** The flipped dict's key order: each value where it first occurs. */
  function FlipOrder<K(!new)>(keys: seq<K>, vals: map<K, int>): seq<int>
    requires forall k :: k in keys ==> k in vals
  {
    if keys == [] then []
    else
      var o, v := FlipOrder(keys[..|keys| - 1], vals), vals[keys[|keys| - 1]];
      if v in o then o else o + [v]
  }

  /** What the flipped dict holds: each value of the dict, once, with the
      keys having it in key order. */
  lemma {:induction false} FlipOfAt<K(!new)>(keys: seq<K>, vals: map<K, int>, v: int)
    requires forall k :: k in keys ==> k in vals
    ensures v in FlipOf(keys, vals) <==> v in FlipOrder(keys, vals)
    ensures v in FlipOf(keys, vals) <==> Filter(keys, HasValue(vals, v)) != []
    ensures v in FlipOf(keys, vals) ==> FlipOf(keys, vals)[v] == Filter(keys, HasValue(vals, v))
  {
    if keys != [] {
      var init, key := keys[..|keys| - 1], keys[|keys| - 1];
      assert keys == init + [key];
      FlipOfAt(init, vals, v);
      FilterSnoc(init, key, HasValue(vals, v));
      var f := Filter(init, HasValue(vals, v));
      if f != [] {
        assert f[0] in f;
      }
    }
  }

  lemma {:induction false} FlipOrderNoDups<K(!new)>(keys: seq<K>, vals: map<K, int>)
    requires forall k :: k in keys ==> k in vals
    ensures NoDups(FlipOrder(keys, vals))
    ensures forall k :: k in keys ==> vals[k] in FlipOrder(keys, vals)
  {
    if keys != [] {
      var init, key := keys[..|keys| - 1], keys[|keys| - 1];
      FlipOrderNoDups(init, vals);
      var o := FlipOrder(init, vals);
      if vals[key] !in o {
        NoDupsConcat(o, [vals[key]]);
      }
      forall k | k in keys ensures vals[k] in FlipOrder(keys, vals) {
        if k != key {
          assert k in init by {
            var n :| 0 <= n < |keys| && keys[n] == k;
            assert init[n] == k;
          }
        }
      }
    }
  }

  /** `flip_dictionary(dict_in)`: each value maps to the list of keys that
      have it, in the dict's key order; `order` is the flipped dict's own key
      order. */
  method FlipDictionary<K(==,!new)>(keys: seq<K>, vals: map<K, int>) returns (order: seq<int>, flipped: map<int, seq<K>>)
    requires forall k :: k in keys ==> k in vals
    ensures NoDups(order) && forall v :: v in order <==> v in flipped
    ensures forall k :: k in keys ==> vals[k] in order
    ensures forall v :: v in flipped ==> flipped[v] != [] && flipped[v] == Filter(keys, HasValue(vals, v))
  {
    order, flipped := [], map[];
    for i := 0 to |keys|
      invariant order == FlipOrder(keys[..i], vals) && flipped == FlipOf(keys[..i], vals)
    {
      assert keys[..i + 1][..i] == keys[..i];
      var key := keys[i];
      var val := vals[key];
      FlipOfAt(keys[..i], vals, val);
      if val !in flipped {
        order := order + [val];
        flipped := flipped[val := []];
      }
      flipped := flipped[val := flipped[val] + [key]];
    }
    assert keys[..|keys|] == keys;
    FlipOrderNoDups(keys, vals);
    forall v ensures (v in order <==> v in flipped) && (v in flipped ==> flipped[v] != [] && flipped[v] == Filter(keys, HasValue(vals, v))) {
      FlipOfAt(keys, vals, v);
    }
  }

  predicate StrictlyDescending(vs: seq<int>)
  {
    forall i, j :: 0 <= i < j < |vs| ==> vs[i] > vs[j]
  }

  function MaxOf(s: seq<int>): (m: int)
    requires s != []
    ensures m in s && forall y :: y in s ==> y <= m
  {
    if |s| == 1 then s[0]
    else
      var m := MaxOf(s[1..]);
      assert forall y :: y in s ==> y == s[0] || y in s[1..];
      if s[0] > m then s[0] else m
  }

  function Other(m: int): int -> bool
  {
    v => v != m
  }

  /** The distinct values of `xs`, largest first, found the way the loop of
      `SortedDescending` finds them. */
  function SortDesc(xs: seq<int>): seq<int>
    decreases |xs|
  {
    if xs == [] then []
    else
      var m := MaxOf(xs);
      FilterShrinks(xs, Other(m), m);
      [m] + SortDesc(Filter(xs, Other(m)))
  }

  lemma {:induction false} SortDescSorted(xs: seq<int>)
    decreases |xs|
    ensures forall v :: v in SortDesc(xs) <==> v in xs
    ensures StrictlyDescending(SortDesc(xs))
  {
    if xs != [] {
      var m := MaxOf(xs);
      var rest := Filter(xs, Other(m));
      FilterShrinks(xs, Other(m), m);
      SortDescSorted(rest);
      assert SortDesc(xs) == [m] + SortDesc(rest);
      ConsDescending(m, SortDesc(rest));
    }
  }

  /** A value above every element of a strictly descending list extends it. */
  lemma ConsDescending(m: int, t: seq<int>)
    requires StrictlyDescending(t) && forall v :: v in t ==> v < m
    ensures StrictlyDescending([m] + t)
  {
    var s := [m] + t;
    forall i, j | 0 <= i < j < |s| ensures s[i] > s[j] {
      assert s[j] == t[j - 1] && s[j] in t;
      if i > 0 {
        assert s[i] == t[i - 1];
      }
    }
  }

  /** `reversed(sorted(d))` for the keys `xs` of a dict: largest first. */
  method SortedDescending(xs: seq<int>) returns (vs: seq<int>)
    ensures StrictlyDescending(vs)
    ensures forall v :: v in vs <==> v in xs
  {
    var rest := xs;
    vs := [];
    while rest != []
      invariant vs + SortDesc(rest) == SortDesc(xs)
      decreases |rest|
    {
      var m := MaxOf(rest);
      FilterShrinks(rest, Other(m), m);
      var next := Filter(rest, Other(m));
      assert SortDesc(rest) == [m] + SortDesc(next);
      assert (vs + [m]) + SortDesc(next) == vs + ([m] + SortDesc(next));
      vs, rest := vs + [m], next;
    }
    assert vs + SortDesc([]) == vs;
    SortDescSorted(xs);
  }

  /** The concatenation of the groups of keys whose values are `vs`, in the
      order of `vs`: what the loop over the flipped dict builds. */
  function Grouped<K(!new)>(keys: seq<K>, vals: map<K, int>, vs: seq<int>): seq<K>
  {
    if vs == [] then [] else Grouped(keys, vals, vs[..|vs| - 1]) + Filter(keys, HasValue(vals, vs[|vs| - 1]))
  }

  /** One more value appends that value's group. */
  lemma GroupedStep<K(!new)>(keys: seq<K>, vals: map<K, int>, vs: seq<int>, i: nat)
    requires i < |vs|
    ensures Grouped(keys, vals, vs[..i + 1]) == Grouped(keys, vals, vs[..i]) + Filter(keys, HasValue(vals, vs[i]))
  {
    assert vs[..i + 1][..i] == vs[..i];
  }

  lemma {:induction false} GroupedMembers<K(!new)>(keys: seq<K>, vals: map<K, int>, vs: seq<int>, x: K)
    ensures x in Grouped(keys, vals, vs) <==> x in keys && x in vals && vals[x] in vs
  {
    if vs != [] {
      var init := vs[..|vs| - 1];
      GroupedMembers(keys, vals, init, x);
      assert vs == init + [vs[|vs| - 1]];
    }
  }

  lemma DescendingInit(vs: seq<int>)
    requires vs != [] && StrictlyDescending(vs)
    ensures StrictlyDescending(vs[..|vs| - 1])
  {
  }

  /** Every earlier value is larger than the last one. */
  lemma AboveLast(vs: seq<int>, x: int)
    requires vs != [] && StrictlyDescending(vs) && x in vs[..|vs| - 1]
    ensures x > vs[|vs| - 1]
  {
    var k :| 0 <= k < |vs| - 1 && vs[..|vs| - 1][k] == x;
  }

  /** Each key appears at most once. */
  lemma {:induction false} GroupedNoDups<K(!new)>(keys: seq<K>, vals: map<K, int>, vs: seq<int>)
    requires NoDups(keys) && StrictlyDescending(vs)
    ensures NoDups(Grouped(keys, vals, vs))
  {
    if vs != [] {
      var init, v := vs[..|vs| - 1], vs[|vs| - 1];
      DescendingInit(vs);
      GroupedNoDups(keys, vals, init);
      FilterNoDups(keys, HasValue(vals, v));
      var g, f := Grouped(keys, vals, init), Filter(keys, HasValue(vals, v));
      forall x | x in g ensures x !in f {
        GroupedMembers(keys, vals, init, x);
        if x in f {
          AboveLast(vs, vals[x]);
        }
      }
      NoDupsConcat(g, f);
    }
  }

  /** Every element of `g` is a key of the dict with a value in `vs`. */
  predicate Valued<K(!new)>(g: seq<K>, keys: seq<K>, vals: map<K, int>, vs: seq<int>)
  {
    forall i :: 0 <= i < |g| ==> g[i] in keys && g[i] in vals && vals[g[i]] in vs
  }

  predicate NonIncreasing<K(!new)>(g: seq<K>, vals: map<K, int>)
    requires forall i :: 0 <= i < |g| ==> g[i] in vals
  {
    forall i, j :: 0 <= i < j < |g| ==> vals[g[i]] >= vals[g[j]]
  }

  predicate TiesInKeyOrder<K(!new)>(g: seq<K>, keys: seq<K>, vals: map<K, int>)
    requires forall i :: 0 <= i < |g| ==> g[i] in keys && g[i] in vals
  {
    forall i, j :: 0 <= i < j < |g| && vals[g[i]] == vals[g[j]] ==> IndexOf(keys, g[i]) < IndexOf(keys, g[j])
  }

  lemma GroupedElements<K(!new)>(keys: seq<K>, vals: map<K, int>, vs: seq<int>)
    ensures Valued(Grouped(keys, vals, vs), keys, vals, vs)
  {
    var g := Grouped(keys, vals, vs);
    forall i | 0 <= i < |g| ensures g[i] in keys && g[i] in vals && vals[g[i]] in vs {
      GroupedMembers(keys, vals, vs, g[i]);
    }
  }

  /** Values never increase along the result. */
  lemma {:induction false} GroupedDescending<K(!new)>(keys: seq<K>, vals: map<K, int>, vs: seq<int>)
    requires StrictlyDescending(vs)
    ensures Valued(Grouped(keys, vals, vs), keys, vals, vs)
    ensures NonIncreasing(Grouped(keys, vals, vs), vals)
  {
    GroupedElements(keys, vals, vs);
    if vs != [] {
      var init, v := vs[..|vs| - 1], vs[|vs| - 1];
      DescendingInit(vs);
      GroupedDescending(keys, vals, init);
      var g0, f := Grouped(keys, vals, init), Filter(keys, HasValue(vals, v));
      var g := g0 + f;
      assert Grouped(keys, vals, vs) == g;
      forall i, j | 0 <= i < j < |g| ensures vals[g[i]] >= vals[g[j]] {
        if j < |g0| {
          assert g[i] == g0[i] && g[j] == g0[j];
        } else {
          assert g[j] == f[j - |g0|] && g[j] in f;
          if i >= |g0| {
            assert g[i] == f[i - |g0|] && g[i] in f;
          } else {
            assert g[i] == g0[i];
            AboveLast(vs, vals[g[i]]);
          }
        }
      }
    }
  }

  /** Keys of equal value keep the dict's key order. */
  lemma {:induction false} GroupedTies<K(!new)>(keys: seq<K>, vals: map<K, int>, vs: seq<int>)
    requires NoDups(keys) && StrictlyDescending(vs)
    ensures Valued(Grouped(keys, vals, vs), keys, vals, vs)
    ensures TiesInKeyOrder(Grouped(keys, vals, vs), keys, vals)
  {
    GroupedElements(keys, vals, vs);
    if vs != [] {
      var init, v := vs[..|vs| - 1], vs[|vs| - 1];
      DescendingInit(vs);
      GroupedTies(keys, vals, init);
      var g0, f := Grouped(keys, vals, init), Filter(keys, HasValue(vals, v));
      var g := g0 + f;
      assert Grouped(keys, vals, vs) == g;
      GroupedElements(keys, vals, init);
      forall i | 0 <= i < |f| ensures f[i] in keys && f[i] in vals && vals[f[i]] == v {
        assert f[i] in f;
      }
      forall i, j | 0 <= i < j < |f| && vals[f[i]] == vals[f[j]]
        ensures IndexOf(keys, f[i]) < IndexOf(keys, f[j])
      {
        FilterKeepsOrder(keys, HasValue(vals, v), i, j);
      }
      forall i, j | 0 <= i < |g0| && 0 <= j < |f| ensures vals[g0[i]] != vals[f[j]] {
        assert f[j] in f;
        AboveLast(vs, vals[g0[i]]);
      }
      TiesConcat(g0, f, keys, vals);
    }
  }

  /** Two runs with no value in common, each keeping ties in key order,
      keep ties in key order when joined. */
  lemma TiesConcat<K(!new)>(a: seq<K>, b: seq<K>, keys: seq<K>, vals: map<K, int>)
    requires forall i :: 0 <= i < |a| ==> a[i] in keys && a[i] in vals
    requires forall i :: 0 <= i < |b| ==> b[i] in keys && b[i] in vals
    requires TiesInKeyOrder(a, keys, vals) && TiesInKeyOrder(b, keys, vals)
    requires forall i, j :: 0 <= i < |a| && 0 <= j < |b| ==> vals[a[i]] != vals[b[j]]
    ensures TiesInKeyOrder(a + b, keys, vals)
  {
    var g := a + b;
    forall i, j | 0 <= i < j < |g| && vals[g[i]] == vals[g[j]]
      ensures IndexOf(keys, g[i]) < IndexOf(keys, g[j])
    {
      if j < |a| {
        assert g[i] == a[i] && g[j] == a[j];
      } else if i >= |a| {
        assert g[i] == b[i - |a|] && g[j] == b[j - |a|];
      } else {
        assert false;
      }
    }
  }

  /** The order `most_valued_words` produces from a dict: every key once,
      values never increasing, keys of equal value in dict order. */
  method RankDescending<K(==,!new)>(keys: seq<K>, vals: map<K, int>) returns (ranked: seq<K>)
    requires NoDups(keys) && forall k :: k in keys ==> k in vals
    ensures forall x :: x in ranked <==> x in keys
    ensures NoDups(ranked)
    ensures forall i, j :: 0 <= i < j < |ranked| ==> vals[ranked[i]] >= vals[ranked[j]]
    ensures forall i, j :: 0 <= i < j < |ranked| && vals[ranked[i]] == vals[ranked[j]]
              ==> IndexOf(keys, ranked[i]) < IndexOf(keys, ranked[j])
  {
    var order, flipped := FlipDictionary(keys, vals);
    var vs := SortedDescending(order);
    assert forall k :: k in keys ==> vals[k] in vs;
    ranked := ConcatGroups(keys, vals, flipped, vs);
    GroupedRanking(keys, vals, vs);
  }

  /** The groups of every value, largest first: each key once, values never
      increasing, ties in key order. */
  lemma GroupedRanking<K(!new)>(keys: seq<K>, vals: map<K, int>, vs: seq<int>)
    requires NoDups(keys) && forall k :: k in keys ==> k in vals && vals[k] in vs
    requires StrictlyDescending(vs)
    ensures forall x :: x in Grouped(keys, vals, vs) <==> x in keys
    ensures NoDups(Grouped(keys, vals, vs))
    ensures Valued(Grouped(keys, vals, vs), keys, vals, vs)
    ensures NonIncreasing(Grouped(keys, vals, vs), vals)
    ensures TiesInKeyOrder(Grouped(keys, vals, vs), keys, vals)
  {
    forall x ensures x in Grouped(keys, vals, vs) <==> x in keys {
      GroupedMembers(keys, vals, vs, x);
    }
    GroupedNoDups(keys, vals, vs);
    GroupedDescending(keys, vals, vs);
    GroupedTies(keys, vals, vs);
  }

  /** The loop of `most_valued_words` over the sorted values: concatenate
      each value's group. */
  method ConcatGroups<K(!new)>(keys: seq<K>, vals: map<K, int>, groups: map<int, seq<K>>, vs: seq<int>) returns (r: seq<K>)
    requires forall v :: v in vs ==> v in groups && groups[v] == Filter(keys, HasValue(vals, v))
    ensures r == Grouped(keys, vals, vs)
  {
    r := [];
    for i := 0 to |vs|
      invariant r == Grouped(keys, vals, vs[..i])
    {
      GroupedStep(keys, vals, vs, i);
      assert vs[i] in vs;
      r := r + groups[vs[i]];
    }
    assert vs[..|vs|] == vs;
  }
}
