/** Order-preserving selection on sequences: `Array.prototype.filter` keyed
    by a projection, and the dropping of `false` children that React performs
    on a rendered list. */
module Seqs {
  import opened Js

  /** The elements of `s` whose key is `k`, in their order in `s`. Defined from
      the back, so that it follows a loop that appends one element at a time. */
  function Filter<E, K(==)>(s: seq<E>, key: E -> K, k: K): (r: seq<E>)
    ensures |r| <= |s|
    ensures forall e :: e in r ==> e in s && key(e) == k
    decreases |s|
  {
    if s == [] then []
    else
      var last := s[|s| - 1];
      Filter(s[..|s| - 1], key, k) + (if key(last) == k then [last] else [])
  }

  /** Filtering a sequence extended by one element extends the result by that
      element exactly when its key matches. */
  lemma FilterSnoc<E, K>(s: seq<E>, x: E, key: E -> K, k: K)
    ensures Filter(s + [x], key, k) == Filter(s, key, k) + (if key(x) == k then [x] else [])
  {
  }

  /** Filter keeps every element whose key matches and nothing else. */
  lemma {:induction false} FilterMembership<E, K>(s: seq<E>, key: E -> K, k: K, e: E)
    ensures e in Filter(s, key, k) <==> e in s && key(e) == k
    decreases |s|
  {
    if s != [] {
      var init, last := s[..|s| - 1], s[|s| - 1];
      assert s == init + [last];
      FilterMembership(init, key, k, e);
    }
  }

  /** Filtering a prefix of `s` yields a prefix of filtering `s`. */
  lemma {:induction false} FilterPrefix<E, K>(s: seq<E>, j: nat, key: E -> K, k: K)
    requires j <= |s|
    ensures Filter(s[..j], key, k) <= Filter(s, key, k)
    decreases |s|
  {
    if j < |s| {
      var init := s[..|s| - 1];
      assert init[..j] == s[..j];
      FilterPrefix(init, j, key, k);
    } else {
      assert s[..j] == s;
    }
  }

  /** The element at input position `i` sits in the filtered sequence at the
      position given by the number of earlier elements with the same key. */
  lemma FilterPosition<E, K>(s: seq<E>, i: nat, key: E -> K, k: K)
    requires i < |s| && key(s[i]) == k
    ensures |Filter(s[..i], key, k)| < |Filter(s, key, k)|
    ensures Filter(s, key, k)[|Filter(s[..i], key, k)|] == s[i]
  {
    assert s[..i + 1] == s[..i] + [s[i]];
    FilterSnoc(s[..i], s[i], key, k);
    FilterPrefix(s, i + 1, key, k);
  }

  /** Filtering preserves relative order: of two matching elements, the earlier
      one in `s` comes first in the result. */
  lemma FilterKeepsOrder<E, K>(s: seq<E>, i: nat, j: nat, key: E -> K, k: K)
    requires i < j < |s| && key(s[i]) == k && key(s[j]) == k
    ensures |Filter(s[..i], key, k)| < |Filter(s[..j], key, k)|
  {
    assert s[..i + 1] == s[..i] + [s[i]];
    FilterSnoc(s[..i], s[i], key, k);
    assert s[..j][..i + 1] == s[..i + 1];
    FilterPrefix(s[..j], i + 1, key, k);
  }

  /** Two selections that agree on every element of `s` pick the same elements. */
  lemma {:induction false} FilterSameSelection<E, K, L>(s: seq<E>, f: E -> K, a: K, g: E -> L, b: L)
    requires forall e :: e in s ==> (f(e) == a <==> g(e) == b)
    ensures Filter(s, f, a) == Filter(s, g, b)
    decreases |s|
  {
    if s != [] {
      FilterSameSelection(s[..|s| - 1], f, a, g, b);
    }
  }

  /** The present values of `s`, in order (React renders `false` as nothing).
      Defined from the back, like Filter. */
  function Compact<T>(s: seq<Option<T>>): (r: seq<T>)
    ensures |r| <= |s|
    decreases |s|
  {
    if s == [] then []
    else
      var last := s[|s| - 1];
      Compact(s[..|s| - 1]) + (if last.Some? then [last.value] else [])
  }
}
