/** The median of a command's sample list, as getMedianValue computes it after
    sorting the list: the middle element for an odd length, and for an even
    length the average of the two middle elements under Java's `long` division,
    which truncates toward zero. */
module SampleStatistics {

  predicate IsSorted(s: seq<int>)
  {
    forall i, j :: 0 <= i < j < |s| ==> s[i] <= s[j]
  }

  function Insert(x: int, s: seq<int>): (r: seq<int>)
    requires IsSorted(s)
    ensures IsSorted(r) && multiset(r) == multiset(s) + multiset{x}
    ensures |r| == |s| + 1 && r[0] == (if s == [] || x <= s[0] then x else s[0])
  {
    if s == [] || x <= s[0] then [x] + s
    else
      assert s == [s[0]] + s[1..];
      [s[0]] + Insert(x, s[1..])
  }

  /** The list as Collections.sort leaves it (see SortIsTheSortedPermutation). */
  function Sort(s: seq<int>): (r: seq<int>)
    ensures IsSorted(r) && multiset(r) == multiset(s) && |r| == |s|
  {
    if s == [] then []
    else
      assert s == s[..|s| - 1] + [s[|s| - 1]];
      Insert(s[|s| - 1], Sort(s[..|s| - 1]))
  }

  /** Java's `x / 2` on a long: the quotient truncated toward zero. */
  function Half(x: int): int
  {
    if x >= 0 then x / 2 else -((-x) / 2)
  }

  /** The value getMedianValue returns for a list it has already sorted. */
  function Median(s: seq<int>): int
    requires |s| > 0
  {
    if |s| % 2 == 1 then s[|s| / 2]
    else Half(s[|s| / 2 - 1] + s[|s| / 2])
  }

  /** The median of an unsorted sample list. */
  function MedianOf(samples: seq<int>): int
    requires |samples| > 0
  {
    Median(Sort(samples))
  }

  lemma SortedHeadIsLeast(s: seq<int>, v: int)
    requires IsSorted(s) && v in multiset(s)
    ensures |s| > 0 && s[0] <= v
  {
    var k :| 0 <= k < |s| && s[k] == v;
  }

  lemma SortedTail(s: seq<int>)
    requires |s| > 0 && IsSorted(s)
    ensures IsSorted(s[1..]) && multiset(s[1..]) == multiset(s) - multiset{s[0]}
  {
    assert s == [s[0]] + s[1..];
  }

  lemma {:induction false} SortedPermutationIsUnique(s: seq<int>, t: seq<int>)
    requires IsSorted(s) && IsSorted(t) && multiset(s) == multiset(t)
    ensures s == t
  {
    assert |multiset(s)| == |s| && |multiset(t)| == |t|;
    if s != [] {
      var x, y := s[0], t[0];
      assert x in multiset(t) && y in multiset(s);
      SortedHeadIsLeast(t, x);
      SortedHeadIsLeast(s, y);
      assert x == y;
      var s', t' := s[1..], t[1..];
      SortedTail(s);
      SortedTail(t);
      assert multiset(s') == multiset(t');
      SortedPermutationIsUnique(s', t');
      assert s == [x] + s' && t == [y] + t';
    }
  }

  /** Any sorted permutation of a list, such as the one Collections.sort produces, is Sort of it. */
  lemma SortIsTheSortedPermutation(s: seq<int>, t: seq<int>)
    requires IsSorted(t) && multiset(t) == multiset(s)
    ensures t == Sort(s)
  {
    SortedPermutationIsUnique(t, Sort(s));
  }

  /** The median depends only on the samples, not on the order they were appended in. */
  lemma MedianIgnoresOrder(s: seq<int>, t: seq<int>)
    requires |s| > 0 && multiset(s) == multiset(t)
    ensures |t| > 0 && MedianOf(s) == MedianOf(t)
  {
    assert |multiset(s)| == |s| && |multiset(t)| == |t|;
    SortedPermutationIsUnique(Sort(s), Sort(t));
  }

  /** The median of a sorted list is at least every element of its lower half and
      at most every element of its upper half. */
  lemma MedianSplitsHalves(s: seq<int>)
    requires |s| > 0 && IsSorted(s)
    ensures forall i :: 0 <= i <= (|s| - 1) / 2 ==> s[i] <= Median(s)
    ensures forall i :: |s| / 2 <= i < |s| ==> Median(s) <= s[i]
  {
    var n := |s|;
    if n % 2 == 0 {
      var a, b := s[n / 2 - 1], s[n / 2];
      assert a <= Half(a + b) <= b;
    }
  }

  /** The median of any sample list lies between its smallest and largest sample. */
  lemma MedianWithinSamples(samples: seq<int>)
    requires |samples| > 0
    ensures exists i :: 0 <= i < |samples| && samples[i] <= MedianOf(samples)
    ensures exists j :: 0 <= j < |samples| && MedianOf(samples) <= samples[j]
  {
    var s := Sort(samples);
    assert |multiset(s)| == |s| && |multiset(samples)| == |samples|;
    MedianSplitsHalves(s);
    assert s[0] <= MedianOf(samples) <= s[|s| - 1];
    assert s[0] in multiset(samples) && s[|s| - 1] in multiset(samples);
    var i :| 0 <= i < |samples| && samples[i] == s[0];
    var j :| 0 <= j < |samples| && samples[j] == s[|s| - 1];
  }
}
