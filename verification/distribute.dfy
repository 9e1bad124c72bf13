/** `randomly_distribute(n, j)`: split a total n into j integers by sampling
    j - 1 distinct cut points from [1, n - 1], sorting them and appending
    `n - sum(cut points)`. The sample is an explicit oracle input. */
module Distribute {
  import opened Sums

  /** The two ways the call raises `ValueError`. */
  datatype Error =
    | TotalBelowParts     // the explicit check `n < j`
    | NegativeSampleSize  // `random.sample` refuses the sample size j - 1 < 0

  datatype Result<T> = Success(value: T) | Failure(error: Error)

  predicate Distinct(s: seq<int>)
  {
    forall i, k | 0 <= i < k < |s| :: s[i] != s[k]
  }

  predicate StrictlyIncreasing(s: seq<int>)
  {
    forall i, k | 0 <= i < k < |s| :: s[i] < s[k]
  }

  /** A possible result of `random.sample(range(1, n), k)`: k distinct values
      from [1, n - 1], in any order. */
  predicate IsSample(sample: seq<int>, k: int, n: int)
  {
    && |sample| == k
    && Distinct(sample)
    && forall i | 0 <= i < |sample| :: 1 <= sample[i] < n
  }

  /** Insert x into its place in a strictly increasing sequence without x. */
  function Insert(x: int, s: seq<int>): (r: seq<int>)
    requires StrictlyIncreasing(s) && x !in s
    ensures StrictlyIncreasing(r)
    ensures multiset(r) == multiset(s) + multiset{x}
  {
    if |s| == 0 then [x]
    else if x < s[0] then
      PrependLeast(x, s);
      [x] + s
    else
      TailIncreasing(s);
      MultisetTail(s);
      var rest := Insert(x, s[1..]);
      ConsIncreasing(s, x, rest);
      [s[0]] + rest
  }

  /** A value below the head of a strictly increasing sequence can go in front. */
  lemma PrependLeast(x: int, s: seq<int>)
    requires StrictlyIncreasing(s) && |s| > 0 && x < s[0]
    ensures StrictlyIncreasing([x] + s)
  {
    forall i, k | 0 <= i < k < |s| + 1
      ensures ([x] + s)[i] < ([x] + s)[k]
    {
      if i == 0 {
        assert ([x] + s)[k] == s[k - 1];
      }
    }
  }

  /** Putting the head of a strictly increasing sequence in front of a
      sorted rearrangement of its tail and one larger value keeps it sorted. */
  lemma ConsIncreasing(s: seq<int>, x: int, rest: seq<int>)
    requires StrictlyIncreasing(s) && |s| > 0 && s[0] < x
    requires StrictlyIncreasing(rest)
    requires multiset(rest) == multiset(s[1..]) + multiset{x}
    ensures StrictlyIncreasing([s[0]] + rest)
    ensures multiset([s[0]] + rest) == multiset(s) + multiset{x}
  {
    assert s == [s[0]] + s[1..];
    forall i | 0 <= i < |rest|
      ensures s[0] < rest[i]
    {
      assert rest[i] in multiset(rest);
      if rest[i] != x {
        assert rest[i] in s[1..];
      }
    }
  }

  /** The tail of a list of distinct values is distinct and lacks the head. */
  lemma DistinctTail(s: seq<int>)
    requires Distinct(s) && |s| > 0
    ensures Distinct(s[1..])
    ensures s[0] !in multiset(s[1..])
  {
    forall i, k | 0 <= i < k < |s| - 1
      ensures s[1..][i] != s[1..][k]
    {
      assert s[1..][i] == s[i + 1] && s[1..][k] == s[k + 1];
    }
    forall i | 0 <= i < |s| - 1
      ensures s[1..][i] != s[0]
    {
      assert s[1..][i] == s[i + 1];
    }
  }

  /** `list.sort()` on a list of distinct integers. */
  function Sort(s: seq<int>): (r: seq<int>)
    requires Distinct(s)
    ensures StrictlyIncreasing(r)
    ensures multiset(r) == multiset(s)
    ensures |r| == |s|
  {
    if |s| == 0 then []
    else
      DistinctTail(s);
      var rest := Sort(s[1..]);
      assert s == [s[0]] + s[1..];
      Insert(s[0], rest)
  }

  lemma HeadIsLeast(a: seq<int>, x: int)
    requires StrictlyIncreasing(a) && x in a
    ensures a[0] <= x
  {
  }

  lemma TailIncreasing(a: seq<int>)
    requires StrictlyIncreasing(a) && |a| > 0
    ensures StrictlyIncreasing(a[1..])
  {
    forall i, k | 0 <= i < k < |a| - 1
      ensures a[1..][i] < a[1..][k]
    {
      assert a[1..][i] == a[i + 1] && a[1..][k] == a[k + 1];
    }
  }

  lemma MultisetTail(a: seq<int>)
    requires |a| > 0
    ensures multiset(a[1..]) == multiset(a) - multiset{a[0]}
  {
    assert a == [a[0]] + a[1..];
  }

  /** There is only one strictly increasing arrangement of a collection of
      values, so any correct sort returns what `Sort` returns. */
  lemma {:induction false} SortedArrangementUnique(a: seq<int>, b: seq<int>)
    requires StrictlyIncreasing(a) && StrictlyIncreasing(b)
    requires multiset(a) == multiset(b)
    ensures a == b
  {
    assert |a| == |multiset(a)| == |multiset(b)| == |b|;
    if |a| > 0 {
      assert a[0] in multiset(b) && b[0] in multiset(a);
      HeadIsLeast(a, b[0]);
      HeadIsLeast(b, a[0]);
      assert a[0] == b[0];
      MultisetTail(a);
      MultisetTail(b);
      assert multiset(a[1..]) == multiset(b[1..]);
      TailIncreasing(a);
      TailIncreasing(b);
      SortedArrangementUnique(a[1..], b[1..]);
      assert forall i | 1 <= i < |a| :: a[i] == a[1..][i - 1] == b[1..][i - 1] == b[i];
    }
  }

  /** Sorting a sample keeps it a sample: its values stay in [1, n - 1]. */
  lemma SortedSampleInRange(sample: seq<int>, k: int, n: int)
    requires IsSample(sample, k, n)
    ensures forall i | 0 <= i < |Sort(sample)| :: 1 <= Sort(sample)[i] < n
  {
    var cuts := Sort(sample);
    forall i | 0 <= i < |cuts|
      ensures 1 <= cuts[i] < n
    {
      assert cuts[i] in multiset(sample);
    }
  }

  /** `randomly_distribute` as written: the sorted cut points followed by
      `n - sum(cut points)`. The last element is not a gap between cut
      points, so nothing makes it positive. */
  function RandomlyDistribute(n: int, j: int, sample: seq<int>): (r: Result<seq<int>>)
    requires 1 <= j <= n ==> IsSample(sample, j - 1, n)
    ensures n < j <==> r == Failure(TotalBelowParts)
    ensures j <= n && j < 1 <==> r == Failure(NegativeSampleSize)
    ensures r.Success? <==> 1 <= j <= n
    ensures r.Success? ==>
      && |r.value| == j
      && StrictlyIncreasing(r.value[..j - 1])
      && multiset(r.value[..j - 1]) == multiset(sample)
      && (forall i | 0 <= i < j - 1 :: 1 <= r.value[i] <= n - 1)
      && r.value[j - 1] == n - Sum(r.value[..j - 1])
      && Sum(r.value) == n
  {
    if n < j then
      Failure(TotalBelowParts)
    else if j < 1 then
      Failure(NegativeSampleSize)
    else
      var cuts := Sort(sample);
      SortedSampleInRange(sample, j - 1, n);
      SumAppend(cuts, n - Sum(cuts));
      assert (cuts + [n - Sum(cuts)])[..j - 1] == cuts;
      Success(cuts + [n - Sum(cuts)])
  }

  /** The last element of the result can be negative: with n = 5, j = 3 and
      the cut points 4 and 3 it is 5 - 7. */
  lemma LastPartCanBeNegative(sample: seq<int>)
    requires sample == [4, 3]
    ensures RandomlyDistribute(5, 3, sample) == Success([3, 4, -2])
  {
    assert sample[1..] == [3];
    assert Sort([3]) == [3];
    assert Sort(sample) == [3, 4];
    assert Sum([3, 4]) == 7;
    assert [3, 4] + [5 - 7] == [3, 4, -2];
  }

  /** Dropping the first value of a strictly increasing run of values keeps
      the rest strictly increasing, and the first value is below the next. */
  lemma IncreasingShift(prev: int, cuts: seq<int>, n: int)
    requires |cuts| > 0 && StrictlyIncreasing([prev] + cuts + [n])
    ensures prev < cuts[0]
    ensures StrictlyIncreasing([cuts[0]] + cuts[1..] + [n])
  {
    var bounded := [prev] + cuts + [n];
    assert bounded[0] == prev && bounded[1] == cuts[0];
    assert [cuts[0]] + cuts[1..] + [n] == bounded[1..];
    TailIncreasing(bounded);
  }

  /** The gaps between consecutive values of `prev`, the cut points and n. */
  function Gaps(prev: int, cuts: seq<int>, n: int): (parts: seq<int>)
    ensures |parts| == |cuts| + 1
    ensures Sum(parts) == n - prev
    ensures forall i | 0 <= i < |cuts| :: Sum(parts[..i + 1]) == cuts[i] - prev
    ensures StrictlyIncreasing([prev] + cuts + [n]) ==> forall i | 0 <= i < |parts| :: parts[i] >= 1
    decreases |cuts|
  {
    if |cuts| == 0 then
      assert StrictlyIncreasing([prev] + cuts + [n]) ==> prev < n by {
        var bounded := [prev] + cuts + [n];
        if StrictlyIncreasing(bounded) {
          assert bounded[0] < bounded[1];
        }
      }
      [n - prev]
    else
      var rest := Gaps(cuts[0], cuts[1..], n);
      var parts := [cuts[0] - prev] + rest;
      assert parts[1..] == rest;
      assert forall i | 0 <= i < |cuts| :: Sum(parts[..i + 1]) == cuts[i] - prev by {
        forall i | 0 <= i < |cuts|
          ensures Sum(parts[..i + 1]) == cuts[i] - prev
        {
          SumPrefixShift(parts, i);
          if i == 0 {
            assert parts[1..][..0] == [];
          }
        }
      }
      assert StrictlyIncreasing([prev] + cuts + [n]) ==> forall i | 0 <= i < |parts| :: parts[i] >= 1 by {
        if StrictlyIncreasing([prev] + cuts + [n]) {
          IncreasingShift(prev, cuts, n);
        }
      }
      parts
  }

  /** Cut points that are strictly increasing and lie in [1, n - 1] stay
      strictly increasing between 0 and n. */
  lemma BoundedIncreasing(cuts: seq<int>, n: int)
    requires StrictlyIncreasing(cuts)
    requires forall i | 0 <= i < |cuts| :: 1 <= cuts[i] < n
    requires 0 < n
    ensures StrictlyIncreasing([0] + cuts + [n])
  {
    var bounded := [0] + cuts + [n];
    forall a, b | 0 <= a < b < |bounded|
      ensures bounded[a] < bounded[b]
    {
      if 0 < a && b < |bounded| - 1 {
        assert bounded[a] == cuts[a - 1] && bounded[b] == cuts[b - 1];
      } else if 0 < a {
        assert bounded[a] == cuts[a - 1];
      } else if b < |bounded| - 1 {
        assert bounded[b] == cuts[b - 1];
      }
    }
  }

  /** The evidently intended distribution: the j gaps that the sorted cut
      points cut [0, n] into, each at least 1 and adding up to n. */
  function DistributeByGaps(n: int, j: int, sample: seq<int>): (r: Result<seq<int>>)
    requires 1 <= j <= n ==> IsSample(sample, j - 1, n)
    ensures n < j <==> r == Failure(TotalBelowParts)
    ensures j <= n && j < 1 <==> r == Failure(NegativeSampleSize)
    ensures r.Success? <==> 1 <= j <= n
    ensures r.Success? ==>
      && |r.value| == j
      && (forall i | 0 <= i < j :: r.value[i] >= 1)
      && Sum(r.value) == n
  {
    if n < j then
      Failure(TotalBelowParts)
    else if j < 1 then
      Failure(NegativeSampleSize)
    else
      var cuts := Sort(sample);
      SortedSampleInRange(sample, j - 1, n);
      BoundedIncreasing(cuts, n);
      Success(Gaps(0, cuts, n))
  }

  /** `randomly_distribute` returns the running totals of the intended gaps
      where it meant the gaps themselves: its first j - 1 elements are the
      prefix sums of the intended result. */
  lemma CutsArePrefixSumsOfGaps(n: int, j: int, sample: seq<int>)
    requires 1 <= j <= n && IsSample(sample, j - 1, n)
    ensures forall i | 0 <= i < j - 1 ::
      RandomlyDistribute(n, j, sample).value[i] == Sum(DistributeByGaps(n, j, sample).value[..i + 1])
  {
  }
}
