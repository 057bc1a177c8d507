/** Left folds over sequences, written the way `Array.prototype.filter` and
    `Array.prototype.reduce` walk an array: the last element is the one folded in last. */
module Seqs {

  /** `sub` is `xs` with some elements left out and the rest in their order. */
  predicate SubsequenceOf<T(==)>(sub: seq<T>, xs: seq<T>)
    decreases |xs|
  {
    if |sub| == 0 then true
    else if |xs| == 0 then false
    else
      || (sub[|sub| - 1] == xs[|xs| - 1] && SubsequenceOf(sub[..|sub| - 1], xs[..|xs| - 1]))
      || SubsequenceOf(sub, xs[..|xs| - 1])
  }

  /** The in-order subsequence of `xs` whose elements satisfy `p` (`xs.filter(p)`):
      every element that passes, as often as it occurs in `xs`, and nothing else. */
  function Keep<T(==,!new)>(xs: seq<T>, p: T -> bool): (r: seq<T>)
    ensures |r| <= |xs|
    ensures forall x :: x in r <==> x in xs && p(x)
    ensures SubsequenceOf(r, xs)
  {
    if |xs| == 0 then [] else
      var init := Keep(xs[..|xs| - 1], p);
      var last := xs[|xs| - 1];
      assert forall x :: x in xs <==> x in xs[..|xs| - 1] || x == last;
      if p(last) then
        assert (init + [last])[..|init|] == init;
        init + [last]
      else init
  }

  /** One step of the filter: the last element is kept or dropped on its own. */
  lemma KeepLast<T(!new)>(xs: seq<T>, p: T -> bool)
    requires |xs| > 0
    ensures Keep(xs, p) == Keep(xs[..|xs| - 1], p) + (if p(xs[|xs| - 1]) then [xs[|xs| - 1]] else [])
  {
  }

  /** The filter keeps each passing element as often as it occurs, and nothing else. */
  lemma {:induction false} KeepCounts<T(!new)>(xs: seq<T>, p: T -> bool)
    ensures forall x :: multiset(Keep(xs, p))[x] == if p(x) then multiset(xs)[x] else 0
    decreases |xs|
  {
    if |xs| > 0 {
      var init, last := xs[..|xs| - 1], xs[|xs| - 1];
      KeepCounts(init, p);
      KeepLast(xs, p);
      assert xs == init + [last];
    }
  }

  /** A subsequence never holds an element more often than the sequence does. */
  lemma {:induction false} SubsequenceCounts<T>(sub: seq<T>, xs: seq<T>)
    requires SubsequenceOf(sub, xs)
    ensures multiset(sub) <= multiset(xs)
    decreases |xs|
  {
    if |sub| > 0 {
      var init, last := xs[..|xs| - 1], xs[|xs| - 1];
      assert xs == init + [last];
      if sub[|sub| - 1] == last && SubsequenceOf(sub[..|sub| - 1], init) {
        SubsequenceCounts(sub[..|sub| - 1], init);
        assert sub == sub[..|sub| - 1] + [last];
      } else {
        SubsequenceCounts(sub, init);
      }
    }
  }

  /** The two properties pin the filter down: an in-order subsequence of `xs` holding
      every passing element as often as `xs` does, and no other, is `Keep(xs, p)`. */
  lemma {:induction false} KeepUnique<T(!new)>(r: seq<T>, xs: seq<T>, p: T -> bool)
    requires SubsequenceOf(r, xs)
    requires forall x :: multiset(r)[x] == if p(x) then multiset(xs)[x] else 0
    ensures r == Keep(xs, p)
    decreases |xs|
  {
    if |xs| > 0 {
      var init, last := xs[..|xs| - 1], xs[|xs| - 1];
      assert xs == init + [last];
      KeepLast(xs, p);
      if p(last) {
        assert multiset(r)[last] == multiset(init)[last] + 1;
        assert |r| > 0;
        var front := r[..|r| - 1];
        if !(r[|r| - 1] == last && SubsequenceOf(front, init)) {
          SubsequenceCounts(r, init);
        }
        assert r == front + [last];
        forall x ensures multiset(front)[x] == if p(x) then multiset(init)[x] else 0 {
        }
        KeepUnique(front, init, p);
      } else {
        assert last !in multiset(r);
        if |r| > 0 {
          assert r[|r| - 1] in multiset(r);
        }
        KeepUnique(r, init, p);
      }
    }
  }

  /** `xs.reduce((sum, x) => sum + f(x), 0)` over exact reals. */
  function Sum<T>(xs: seq<T>, f: T -> real): real
  {
    if |xs| == 0 then 0.0 else Sum(xs[..|xs| - 1], f) + f(xs[|xs| - 1])
  }

  /** `xs.reduce((sum, x) => sum + f(x), 0)` over integers. */
  function SumInt<T>(xs: seq<T>, f: T -> int): int
  {
    if |xs| == 0 then 0 else SumInt(xs[..|xs| - 1], f) + f(xs[|xs| - 1])
  }

  /** Every element of `xs` satisfies `p`. */
  ghost predicate All<T>(xs: seq<T>, p: T -> bool)
  {
    forall i :: 0 <= i < |xs| ==> p(xs[i])
  }

  lemma {:induction false} KeepAppend<T(!new)>(a: seq<T>, b: seq<T>, p: T -> bool)
    ensures Keep(a + b, p) == Keep(a, p) + Keep(b, p)
    decreases |b|
  {
    if |b| == 0 {
      assert a + b == a;
    } else {
      var b' := b[..|b| - 1];
      assert (a + b)[..|a + b| - 1] == a + b';
      assert (a + b)[|a + b| - 1] == b[|b| - 1];
      KeepAppend(a, b', p);
    }
  }

  /** Filtering by a stronger predicate after a weaker one is filtering by the
      stronger one alone. */
  lemma {:induction false} KeepKeep<T(!new)>(xs: seq<T>, p: T -> bool, q: T -> bool)
    requires forall x :: q(x) ==> p(x)
    ensures Keep(Keep(xs, p), q) == Keep(xs, q)
    decreases |xs|
  {
    if |xs| > 0 {
      var init := xs[..|xs| - 1];
      var last := xs[|xs| - 1];
      KeepKeep(init, p, q);
      var tail := if p(last) then [last] else [];
      assert Keep(xs, p) == Keep(init, p) + tail;
      KeepAppend(Keep(init, p), tail, q);
      assert [last][..0] == [];
      assert Keep(tail, q) == (if q(last) then [last] else []);
    }
  }

  /** Filters that agree on every element keep the same elements. */
  lemma {:induction false} KeepAgree<T(!new)>(xs: seq<T>, p: T -> bool, q: T -> bool)
    requires forall x :: p(x) == q(x)
    ensures Keep(xs, p) == Keep(xs, q)
    decreases |xs|
  {
    if |xs| > 0 {
      KeepAgree(xs[..|xs| - 1], p, q);
    }
  }

  lemma {:induction false} SumAppend<T>(a: seq<T>, b: seq<T>, f: T -> real)
    ensures Sum(a + b, f) == Sum(a, f) + Sum(b, f)
    decreases |b|
  {
    if |b| == 0 {
      assert a + b == a;
    } else {
      var b' := b[..|b| - 1];
      assert (a + b)[..|a + b| - 1] == a + b';
      assert (a + b)[|a + b| - 1] == b[|b| - 1];
      SumAppend(a, b', f);
    }
  }

  lemma {:induction false} SumIntAppend<T>(a: seq<T>, b: seq<T>, f: T -> int)
    ensures SumInt(a + b, f) == SumInt(a, f) + SumInt(b, f)
    decreases |b|
  {
    if |b| == 0 {
      assert a + b == a;
    } else {
      var b' := b[..|b| - 1];
      assert (a + b)[..|a + b| - 1] == a + b';
      assert (a + b)[|a + b| - 1] == b[|b| - 1];
      SumIntAppend(a, b', f);
    }
  }

  /** Filtering keeps everything exactly when every element passes. */
  lemma {:induction false} KeepAll<T(!new)>(xs: seq<T>, p: T -> bool)
    requires All(xs, p)
    ensures Keep(xs, p) == xs
  {
    if |xs| > 0 {
      var init, last := xs[..|xs| - 1], xs[|xs| - 1];
      assert Keep(init, p) == init by {
        assert All(init, p);
        KeepAll(init, p);
      }
      assert Keep(xs, p) == Keep(init, p) + [last] by {
        assert p(last);
        KeepLast(xs, p);
      }
      assert init + [last] == xs;
    }
  }

  /** A sum of non-negative terms is non-negative. */
  lemma {:induction false} SumNonNegative<T>(xs: seq<T>, f: T -> real)
    requires forall i :: 0 <= i < |xs| ==> f(xs[i]) >= 0.0
    ensures Sum(xs, f) >= 0.0
  {
    if |xs| > 0 {
      SumNonNegative(xs[..|xs| - 1], f);
    }
  }

  /** Replacing one element changes the sum by the difference of the two terms. */
  lemma {:induction false} SumUpdate<T>(xs: seq<T>, i: int, x: T, f: T -> real)
    requires 0 <= i < |xs|
    ensures Sum(xs[i := x], f) == Sum(xs, f) - f(xs[i]) + f(x)
    decreases |xs|
  {
    var n := |xs| - 1;
    if i < n {
      assert xs[i := x][..n] == xs[..n][i := x];
      SumUpdate(xs[..n], i, x, f);
    } else {
      assert xs[i := x][..n] == xs[..n];
    }
  }

  lemma {:induction false} SumIntUpdate<T>(xs: seq<T>, i: int, x: T, f: T -> int)
    requires 0 <= i < |xs|
    ensures SumInt(xs[i := x], f) == SumInt(xs, f) - f(xs[i]) + f(x)
    decreases |xs|
  {
    var n := |xs| - 1;
    if i < n {
      assert xs[i := x][..n] == xs[..n][i := x];
      SumIntUpdate(xs[..n], i, x, f);
    } else {
      assert xs[i := x][..n] == xs[..n];
    }
  }
}
