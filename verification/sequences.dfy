/** Generic sequence vocabulary: filtering, first-appearance deduplication and
    the order in which values first appear. Both `Filter` and `Distinct` are
    defined by appending at the end, the way a `List<T>.Add` loop builds its
    result. */
module Sequences {

  /** No value occurs twice. */
  predicate NoDuplicates<T(==)>(s: seq<T>)
  {
    forall i, j :: 0 <= i < j < |s| ==> s[i] != s[j]
  }

  /** The elements of `xs` that satisfy `p`, in their original order. */
  function Filter<T>(p: T -> bool, xs: seq<T>): (r: seq<T>)
    ensures |r| <= |xs|
    ensures forall k :: 0 <= k < |r| ==> r[k] in xs && p(r[k])
    ensures forall k :: 0 <= k < |xs| && p(xs[k]) ==> xs[k] in r
    decreases |xs|
  {
    if |xs| == 0 then []
    else
      var init := xs[..|xs| - 1];
      var last := xs[|xs| - 1];
      assert xs == init + [last];
      Filter(p, init) + (if p(last) then [last] else [])
  }

  /** The values of `xs`, each once, in the order they first appear. */
  function Distinct<T(==)>(xs: seq<T>): (r: seq<T>)
    ensures forall k :: 0 <= k < |r| ==> r[k] in xs
    ensures forall k :: 0 <= k < |xs| ==> xs[k] in r
    ensures NoDuplicates(r)
    decreases |xs|
  {
    if |xs| == 0 then []
    else
      var init := xs[..|xs| - 1];
      var last := xs[|xs| - 1];
      assert xs == init + [last];
      var d := Distinct(init);
      if last in d then d else d + [last]
  }

  /** Index of the first occurrence of `x` in `xs`. */
  function FirstIndex<T(==)>(xs: seq<T>, x: T): (i: nat)
    requires x in xs
    ensures i < |xs| && xs[i] == x
    ensures forall j :: 0 <= j < i ==> xs[j] != x
  {
    if xs[0] == x then 0 else 1 + FirstIndex(xs[1..], x)
  }

  /** `r` lists values of `xs` strictly in the order of their first
      appearance in `xs`. */
  predicate InFirstAppearanceOrder<T(==)>(r: seq<T>, xs: seq<T>)
  {
    && (forall k :: 0 <= k < |r| ==> r[k] in xs)
    && (forall i, j :: 0 <= i < j < |r| ==> FirstIndex(xs, r[i]) < FirstIndex(xs, r[j]))
  }

  /** A first occurrence inside a prefix is the first occurrence overall. */
  lemma {:induction false} FirstIndexPrefix<T>(xs: seq<T>, n: nat, x: T)
    requires n <= |xs| && x in xs[..n]
    ensures FirstIndex(xs, x) == FirstIndex(xs[..n], x)
    decreases n
  {
    if xs[0] != x {
      assert xs[..n][1..] == xs[1..][..n - 1];
      FirstIndexPrefix(xs[1..], n - 1, x);
    }
  }

  /** Deduplication keeps the order of first appearance. */
  lemma {:induction false} DistinctOrder<T>(xs: seq<T>)
    ensures InFirstAppearanceOrder(Distinct(xs), xs)
    decreases |xs|
  {
    if |xs| > 0 {
      var n := |xs| - 1;
      var init := xs[..n];
      var last := xs[n];
      assert xs == init + [last];
      DistinctOrder(init);
      var d := Distinct(init);
      forall k | 0 <= k < |d|
        ensures d[k] in init && FirstIndex(xs, d[k]) == FirstIndex(init, d[k])
      {
        assert d[k] in d;
        FirstIndexPrefix(xs, n, d[k]);
      }
      if last !in d {
        assert last !in init;
        assert FirstIndex(xs, last) == n;
        var r := d + [last];
        forall i, j | 0 <= i < j < |r|
          ensures FirstIndex(xs, r[i]) < FirstIndex(xs, r[j])
        {
          if j < |d| {
            assert r[i] == d[i] && r[j] == d[j];
          } else {
            assert r[i] == d[i];
          }
        }
      }
    }
  }

  /** Filtering keeps the order of first appearance. */
  lemma {:induction false} FilterOrder<T>(p: T -> bool, d: seq<T>, xs: seq<T>)
    requires InFirstAppearanceOrder(d, xs)
    ensures InFirstAppearanceOrder(Filter(p, d), xs)
    decreases |d|
  {
    if |d| > 0 {
      var n := |d| - 1;
      var init := d[..n];
      assert d == init + [d[n]];
      assert InFirstAppearanceOrder(init, xs);
      FilterOrder(p, init, xs);
      if p(d[n]) {
        FilterOrderAppend(p, d, xs);
      }
    }
  }

  /** Appending the last element of `d` after the filtered rest of `d`
      keeps the order of first appearance. */
  lemma FilterOrderAppend<T>(p: T -> bool, d: seq<T>, xs: seq<T>)
    requires |d| > 0 && InFirstAppearanceOrder(d, xs)
    requires InFirstAppearanceOrder(Filter(p, d[..|d| - 1]), xs)
    ensures InFirstAppearanceOrder(Filter(p, d[..|d| - 1]) + [d[|d| - 1]], xs)
  {
    var n := |d| - 1;
    var f := Filter(p, d[..n]);
    var r := f + [d[n]];
    forall i, j | 0 <= i < j < |r|
      ensures FirstIndex(xs, r[i]) < FirstIndex(xs, r[j])
    {
      assert r[i] == f[i];
      if j < |f| {
        assert r[j] == f[j];
      } else {
        assert f[i] in d[..n];
        var k :| 0 <= k < n && d[..n][k] == f[i];
        assert d[k] == r[i] && d[n] == r[j];
      }
    }
  }

  /** Values listed in first-appearance order are never listed twice. */
  lemma FirstAppearanceOrderNoDuplicates<T>(r: seq<T>, xs: seq<T>)
    requires InFirstAppearanceOrder(r, xs)
    ensures NoDuplicates(r)
  {
  }

  /** A sequence without duplicates has as many elements as its set. */
  lemma {:induction false} NoDuplicatesCardinality<T>(s: seq<T>)
    requires NoDuplicates(s)
    ensures |set x | x in s| == |s|
    decreases |s|
  {
    if |s| > 0 {
      var init := s[..|s| - 1];
      var last := s[|s| - 1];
      assert s == init + [last];
      NoDuplicatesCardinality(init);
      assert last !in init;
      assert (set x | x in s) == (set x | x in init) + {last};
    }
  }

  /** The deduplication of `xs` has one entry per distinct value of `xs`. */
  lemma DistinctCardinality<T>(xs: seq<T>)
    ensures |Distinct(xs)| == |set x | x in xs|
  {
    var d := Distinct(xs);
    NoDuplicatesCardinality(d);
    assert (set x | x in d) == (set x | x in xs);
  }

  /** Filtering by a predicate and by its complement splits the sequence
      without losing or adding an element. */
  lemma {:induction false} FilterComplementLength<T>(p: T -> bool, q: T -> bool, xs: seq<T>)
    requires forall x :: q(x) == !p(x)
    ensures |Filter(p, xs)| + |Filter(q, xs)| == |xs|
    decreases |xs|
  {
    if |xs| > 0 {
      FilterComplementLength(p, q, xs[..|xs| - 1]);
    }
  }

  /** Filtering a sequence extended by one element. */
  lemma FilterAppend<T>(p: T -> bool, xs: seq<T>, a: T)
    ensures Filter(p, xs + [a]) == Filter(p, xs) + (if p(a) then [a] else [])
  {
    assert (xs + [a])[..|xs|] == xs;
  }

  /** Deduplicating a sequence extended by one element: the element is added
      at the end exactly when it is new. */
  lemma DistinctAppend<T>(xs: seq<T>, a: T)
    ensures Distinct(xs + [a]) == if a in xs then Distinct(xs) else Distinct(xs) + [a]
  {
    assert (xs + [a])[..|xs|] == xs;
  }

  /** `s` is `xs` followed by the first `j` elements of `ys`: the state of a
      loop that appends `ys` to `xs` one element at a time. */
  ghost predicate Extends<T>(s: seq<T>, xs: seq<T>, ys: seq<T>, j: nat)
  {
    j <= |ys| && s == xs + ys[..j]
  }

  /** Appending the next element of `ys` advances the loop state. */
  lemma ExtendsStep<T>(s: seq<T>, xs: seq<T>, ys: seq<T>, j: nat)
    requires Extends(s, xs, ys, j) && j < |ys|
    ensures Extends(s + [ys[j]], xs, ys, j + 1)
  {
    assert ys[..j + 1] == ys[..j] + [ys[j]];
  }

  /** Once all of `ys` is appended, the state is `xs + ys`. */
  lemma ExtendsAll<T>(s: seq<T>, xs: seq<T>, ys: seq<T>)
    requires Extends(s, xs, ys, |ys|)
    ensures s == xs + ys
  {
    assert ys[..|ys|] == ys;
  }
}
