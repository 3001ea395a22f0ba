/**
 * The array operations the views are written with: `filter`, `reduce`
 * into a sum, and the lookup in a `Map` built from a list, where a later
 * element with the same key replaces an earlier one.
 */
module Seqs {
  import opened Optional

  /** `xs.filter(p)`: the elements satisfying `p`, in their original order. */
  function Filter<T(!new)>(xs: seq<T>, p: T -> bool): (r: seq<T>)
    ensures |r| <= |xs|
    ensures forall x :: x in r <==> x in xs && p(x)
    ensures forall x :: multiset(r)[x] == if p(x) then multiset(xs)[x] else 0
  {
    if |xs| == 0 then []
    else
      assert xs == [xs[0]] + xs[1..];
      if p(xs[0]) then [xs[0]] + Filter(xs[1..], p) else Filter(xs[1..], p)
  }

  /** Filtering is determined by the predicate's values only. */
  lemma {:induction false} FilterExtensional<T(!new)>(xs: seq<T>, p: T -> bool, q: T -> bool)
    requires forall x :: x in xs ==> p(x) == q(x)
    ensures Filter(xs, p) == Filter(xs, q)
  {
    if |xs| > 0 {
      FilterExtensional(xs[1..], p, q);
    }
  }

  /** Filtering twice is filtering once by the conjunction. */
  lemma {:induction false} FilterFilter<T(!new)>(xs: seq<T>, p: T -> bool, q: T -> bool)
    ensures Filter(Filter(xs, p), q) == Filter(xs, x => p(x) && q(x))
  {
    if |xs| > 0 {
      FilterFilter(xs[1..], p, q);
      if p(xs[0]) {
        assert Filter(xs, p) == [xs[0]] + Filter(xs[1..], p);
        assert Filter(xs, p)[1..] == Filter(xs[1..], p);
      }
    }
  }

  /**
   * Two predicates that never hold together split a filter in two:
   * the lengths add up.
   */
  lemma {:induction false} FilterSplit<T(!new)>(xs: seq<T>, p: T -> bool, q: T -> bool, pq: T -> bool)
    requires forall x :: x in xs ==> !(p(x) && q(x)) && (pq(x) == (p(x) || q(x)))
    ensures |Filter(xs, p)| + |Filter(xs, q)| == |Filter(xs, pq)|
  {
    if |xs| > 0 {
      FilterSplit(xs[1..], p, q, pq);
    }
  }

  /**
   * The value a `Map` built by `new Map(xs.map(x => [key(x), x]))` holds for
   * a key: the LAST element satisfying `p` (here `key(x) == k`), or none.
   */
  function LastMatch<T>(xs: seq<T>, p: T -> bool): (r: Option<T>)
    ensures r.None? <==> forall i :: 0 <= i < |xs| ==> !p(xs[i])
    ensures r.Some? ==> p(r.value)
    ensures r.Some? ==>
      exists k :: 0 <= k < |xs| && xs[k] == r.value && (forall j :: k < j < |xs| ==> !p(xs[j]))
  {
    if |xs| == 0 then None
    else if p(xs[|xs| - 1]) then Some(xs[|xs| - 1])
    else
      var r := LastMatch(xs[..|xs| - 1], p);
      assert r.Some? ==>
        exists k :: 0 <= k < |xs| - 1 && xs[k] == r.value && (forall j :: k < j < |xs| ==> !p(xs[j]));
      r
  }

  /** A later match wins: appending one element decides the lookup when it matches. */
  lemma LastMatchAppend<T>(xs: seq<T>, x: T, p: T -> bool)
    ensures LastMatch(xs + [x], p) == if p(x) then Some(x) else LastMatch(xs, p)
  {
    var all := xs + [x];
    assert all[..|all| - 1] == xs;
  }

  /** `xs.reduce((s, x) => s + f(x), 0)`. */
  function Sum<T>(xs: seq<T>, f: T -> real): real
  {
    if |xs| == 0 then 0.0 else Sum(xs[..|xs| - 1], f) + f(xs[|xs| - 1])
  }

  lemma {:induction false} SumAppend<T>(xs: seq<T>, ys: seq<T>, f: T -> real)
    ensures Sum(xs + ys, f) == Sum(xs, f) + Sum(ys, f)
    decreases |ys|
  {
    if |ys| > 0 {
      assert (xs + ys)[..|xs + ys| - 1] == xs + ys[..|ys| - 1];
      SumAppend(xs, ys[..|ys| - 1], f);
    } else {
      assert xs + ys == xs;
    }
  }

  /** A sum of terms each within [lo, hi] lies within [n * lo, n * hi]. */
  lemma {:induction false} SumBounds<T>(xs: seq<T>, f: T -> real, lo: real, hi: real)
    requires forall i :: 0 <= i < |xs| ==> lo <= f(xs[i]) <= hi
    ensures |xs| as real * lo <= Sum(xs, f) <= |xs| as real * hi
  {
    if |xs| > 0 {
      SumBounds(xs[..|xs| - 1], f, lo, hi);
    }
  }

  /** Terms that are zero can be dropped from a sum. */
  lemma {:induction false} SumDropZeros<T(!new)>(xs: seq<T>, f: T -> real, keep: T -> bool)
    requires forall x :: x in xs && !keep(x) ==> f(x) == 0.0
    ensures Sum(xs, f) == Sum(Filter(xs, keep), f)
  {
    if |xs| > 0 {
      var init, last := xs[..|xs| - 1], xs[|xs| - 1];
      assert xs == init + [last];
      SumDropZeros(init, f, keep);
      FilterAppend(init, [last], keep);
      SumAppend(Filter(init, keep), Filter([last], keep), f);
    }
  }

  lemma {:induction false} FilterAppend<T(!new)>(xs: seq<T>, ys: seq<T>, p: T -> bool)
    ensures Filter(xs + ys, p) == Filter(xs, p) + Filter(ys, p)
  {
    if |xs| > 0 {
      assert (xs + ys)[1..] == xs[1..] + ys;
      FilterAppend(xs[1..], ys, p);
    } else {
      assert xs + ys == ys;
    }
  }

  /** Two term functions that agree on every element give the same sum. */
  lemma {:induction false} SumExtensional<T(!new)>(xs: seq<T>, f: T -> real, g: T -> real)
    requires forall x :: x in xs ==> f(x) == g(x)
    ensures Sum(xs, f) == Sum(xs, g)
  {
    if |xs| > 0 {
      SumExtensional(xs[..|xs| - 1], f, g);
    }
  }

  /** A total of `n` terms in [lo, hi], divided by `n`, lies in [lo, hi]. */
  lemma MeanWithinBounds(total: real, n: real, lo: real, hi: real)
    requires n > 0.0 && n * lo <= total <= n * hi
    ensures lo <= total / n <= hi
  {
    assert total / n * n == total;
  }
}
