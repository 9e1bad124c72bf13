/** Integer sums over sequences, Python's `s[:-1]`, and the "first covering
    prefix" of a sequence of sizes: the number of draws a population
    partitioning consumes before the remaining population drops below 1. */
module Sums {

  /** The sum of a sequence of integers (Python's `sum`). */
  function Sum(s: seq<int>): int
  {
    if |s| == 0 then 0 else s[0] + Sum(s[1..])
  }

  /** Appending one element adds it to the sum. */
  lemma {:induction false} SumAppend(s: seq<int>, x: int)
    ensures Sum(s + [x]) == Sum(s) + x
  {
    if |s| == 0 {
      assert s + [x] == [x];
      assert [x][1..] == [];
    } else {
      assert (s + [x])[1..] == s[1..] + [x];
      SumAppend(s[1..], x);
    }
  }

  /** Extending a prefix by one element adds that element to the prefix sum. */
  lemma SumPrefixStep(s: seq<int>, k: nat)
    requires k < |s|
    ensures Sum(s[..k + 1]) == Sum(s[..k]) + s[k]
  {
    assert s[..k + 1] == s[..k] + [s[k]];
    SumAppend(s[..k], s[k]);
  }

  /** A prefix of length i + 1 is the head plus a prefix of length i of the tail. */
  lemma SumPrefixShift(s: seq<int>, i: nat)
    requires i < |s|
    ensures Sum(s[..i + 1]) == s[0] + Sum(s[1..][..i])
  {
    assert s[..i + 1][1..] == s[1..][..i];
  }

  /** Python's `s[:-1]`: all but the last element; the empty list stays empty. */
  function DropLast<T>(s: seq<T>): (r: seq<T>)
    ensures r <= s
    ensures |s| == 0 ==> r == []
    ensures |s| > 0 ==> |r| == |s| - 1
  {
    if |s| == 0 then [] else s[..|s| - 1]
  }

  lemma DropLastAppend<T>(s: seq<T>, x: T)
    ensures DropLast(s + [x]) == s
  {
    assert (s + [x])[..|s|] == s;
  }

  /** k is the first prefix length whose sum reaches `left`: subtracting the
      first k sizes from `left` takes it below 1, and no shorter prefix does. */
  ghost predicate FirstCovering(left: int, sizes: seq<int>, k: nat)
  {
    && k <= |sizes|
    && left <= Sum(sizes[..k])
    && forall i | 0 <= i < k :: Sum(sizes[..i]) < left
  }

  /** The number of sizes a partitioning of `left` consumes: subtract sizes
      one at a time while the remainder is at least 1. */
  function DrawsConsumed(left: int, sizes: seq<int>): (k: nat)
    requires left <= Sum(sizes)
    ensures FirstCovering(left, sizes, k)
    ensures left < 1 <==> k == 0
    decreases |sizes|
  {
    if left < 1 then
      assert sizes[..0] == [];
      0
    else
      var k' := DrawsConsumed(left - sizes[0], sizes[1..]);
      var k := k' + 1;
      SumPrefixShift(sizes, k');
      assert forall i | 0 <= i < k :: Sum(sizes[..i]) < left by {
        forall i | 0 <= i < k
          ensures Sum(sizes[..i]) < left
        {
          if i == 0 {
            assert sizes[..0] == [];
          } else {
            SumPrefixShift(sizes, i - 1);
          }
        }
      }
      k
  }

  /** One step of the partitioning: a population of at least 1 consumes the
      first size and then what the rest of the population consumes. */
  lemma DrawsConsumedStep(left: int, sizes: seq<int>)
    requires 1 <= left <= Sum(sizes)
    ensures |sizes| > 0
    ensures left - sizes[0] <= Sum(sizes[1..])
    ensures DrawsConsumed(left, sizes) == 1 + DrawsConsumed(left - sizes[0], sizes[1..])
  {
  }

  /** At most one prefix length is the first to cover `left`. */
  lemma FirstCoveringUnique(left: int, sizes: seq<int>, k1: nat, k2: nat)
    requires FirstCovering(left, sizes, k1) && FirstCovering(left, sizes, k2)
    ensures k1 == k2
  {
  }

  /** Dropping the last covering size leaves a prefix strictly below `left`,
      short of it by at most that last size. */
  lemma CoveringShortfall(left: int, sizes: seq<int>, k: nat)
    requires FirstCovering(left, sizes, k) && k >= 1
    ensures Sum(sizes[..k - 1]) < left <= Sum(sizes[..k - 1]) + sizes[k - 1]
  {
    SumPrefixStep(sizes, k - 1);
  }
}
