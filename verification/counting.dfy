/** Sums, occurrence counts, extrema and distinctness over sequences: the
    vocabulary in which the statistics of this model are stated. */
module Counting {

  /** Python's built-in `sum` over a list of integers. */
  function Sum(xs: seq<int>): int
  {
    if |xs| == 0 then 0 else xs[0] + Sum(xs[1..])
  }

  /** Number of positions of `xs` that hold `v`. */
  function Count<T(==)>(xs: seq<T>, v: T): (n: nat)
    ensures n <= |xs|
    ensures n > 0 <==> v in xs
  {
    if |xs| == 0 then 0
    else (if xs[0] == v then 1 else 0) + Count(xs[1..], v)
  }

  /** No value occurs twice in `xs`. */
  predicate Distinct<T(==)>(xs: seq<T>)
  {
    forall i, j :: 0 <= i < j < |xs| ==> xs[i] != xs[j]
  }

  /** The set of values occurring in `xs`. */
  function Elements<T>(xs: seq<T>): set<T>
  {
    set x | x in xs
  }

  lemma ElementsAppend<T>(xs: seq<T>, x: T)
    ensures Elements(xs + [x]) == Elements(xs) + {x}
  {
    assert forall y :: y in xs + [x] <==> y in xs || y == x;
  }

  /** Total number of positions of `xs` that hold one of `keys`, one key at a time. */
  function SumCounts<T(==)>(keys: seq<T>, xs: seq<T>): nat
  {
    if |keys| == 0 then 0 else Count(xs, keys[0]) + SumCounts(keys[1..], xs)
  }

  function Minimum(xs: seq<int>): (m: int)
    requires |xs| > 0
    ensures m in xs
    ensures forall i :: 0 <= i < |xs| ==> m <= xs[i]
  {
    if |xs| == 1 then xs[0]
    else
      var rest := Minimum(xs[1..]);
      if xs[0] <= rest then xs[0] else rest
  }

  function Maximum(xs: seq<int>): (m: int)
    requires |xs| > 0
    ensures m in xs
    ensures forall i :: 0 <= i < |xs| ==> xs[i] <= m
  {
    if |xs| == 1 then xs[0]
    else
      var rest := Maximum(xs[1..]);
      if xs[0] >= rest then xs[0] else rest
  }

  /** Counting over a concatenation adds the counts of the two parts. */
  lemma {:induction false} CountAppend<T>(a: seq<T>, b: seq<T>, v: T)
    ensures Count(a + b, v) == Count(a, v) + Count(b, v)
    decreases |a|
  {
    if |a| == 0 {
      assert a + b == b;
    } else {
      assert (a + b)[1..] == a[1..] + b;
      CountAppend(a[1..], b, v);
    }
  }

  /** In a sequence without repetitions every value occurs at most once. */
  lemma {:induction false} CountDistinct<T>(keys: seq<T>, v: T)
    requires Distinct(keys)
    ensures Count(keys, v) == if v in keys then 1 else 0
    decreases |keys|
  {
    if |keys| > 0 {
      assert Distinct(keys[1..]);
      CountDistinct(keys[1..], v);
      if keys[0] == v {
        assert v !in keys[1..] by {
          forall i | 0 <= i < |keys[1..]|
            ensures keys[1..][i] != v
          {
            assert keys[1..][i] == keys[i + 1];
          }
        }
      }
    }
  }

  /** Appending one value to `xs` raises `SumCounts` by the number of keys equal to it. */
  lemma {:induction false} SumCountsSnoc<T>(keys: seq<T>, xs: seq<T>, x: T)
    ensures SumCounts(keys, xs + [x]) == SumCounts(keys, xs) + Count(keys, x)
    decreases |keys|
  {
    if |keys| > 0 {
      CountAppend(xs, [x], keys[0]);
      SumCountsSnoc(keys[1..], xs, x);
    }
  }

  /** Counting `xs` against keys without repetitions counts each position at
      most once, and exactly once when every value of `xs` is a key. */
  lemma {:induction false} SumCountsOfDistinct<T>(keys: seq<T>, xs: seq<T>)
    requires Distinct(keys)
    ensures SumCounts(keys, xs) <= |xs|
    ensures (forall x :: x in xs ==> x in keys) ==> SumCounts(keys, xs) == |xs|
    decreases |xs|
  {
    if |xs| == 0 {
      SumCountsEmpty(keys, xs);
    } else {
      var init, last := xs[..|xs| - 1], xs[|xs| - 1];
      assert xs == init + [last];
      SumCountsOfDistinct(keys, init);
      SumCountsSnoc(keys, init, last);
      CountDistinct(keys, last);
    }
  }

  lemma {:induction false} SumCountsEmpty<T>(keys: seq<T>, xs: seq<T>)
    requires |xs| == 0
    ensures SumCounts(keys, xs) == 0
    decreases |keys|
  {
    if |keys| > 0 {
      SumCountsEmpty(keys[1..], xs);
    }
  }

  /** A sequence without repetitions has as many elements as positions. */
  lemma {:induction false} DistinctCardinality<T>(xs: seq<T>)
    requires Distinct(xs)
    ensures |Elements(xs)| == |xs|
    decreases |xs|
  {
    if |xs| > 0 {
      var init, last := xs[..|xs| - 1], xs[|xs| - 1];
      assert Distinct(init);
      DistinctCardinality(init);
      assert Elements(xs) == Elements(init) + {last};
      assert last !in Elements(init);
    }
  }

  /** Every element at least `lo` makes the sum at least `|xs| * lo`. */
  lemma {:induction false} SumLowerBound(xs: seq<int>, lo: int)
    requires forall i :: 0 <= i < |xs| ==> lo <= xs[i]
    ensures |xs| * lo <= Sum(xs)
    decreases |xs|
  {
    if |xs| > 0 {
      SumLowerBound(xs[1..], lo);
      assert |xs| * lo == lo + (|xs| - 1) * lo;
    }
  }

  /** Every element at most `hi` makes the sum at most `|xs| * hi`. */
  lemma {:induction false} SumUpperBound(xs: seq<int>, hi: int)
    requires forall i :: 0 <= i < |xs| ==> xs[i] <= hi
    ensures Sum(xs) <= |xs| * hi
    decreases |xs|
  {
    if |xs| > 0 {
      SumUpperBound(xs[1..], hi);
      assert |xs| * hi == hi + (|xs| - 1) * hi;
    }
  }
}
