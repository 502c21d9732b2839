/** The similarity score `calculate_similarity` (Attendance.py:25-30). The
    keypoint detection and matching that produce the matches are outside
    the model: the function receives the Hamming distances of the matches
    (natural numbers), and averages them with exact rational arithmetic. */
module Similarity {

  function Sum(d: seq<nat>): nat
  {
    if d == [] then 0 else d[0] + Sum(d[1..])
  }

  /** The mean match distance. */
  function Mean(d: seq<nat>): real
    requires |d| > 0
  {
    Sum(d) as real / |d| as real
  }

  function Max(a: real, b: real): real { if a >= b then a else b }

  /** `max(0, 100 - avg_distance)`, or 0 when there are no matches. */
  function CalculateSimilarity(distances: seq<nat>): (s: real)
    ensures 0.0 <= s <= 100.0
    ensures |distances| == 0 ==> s == 0.0
  {
    if |distances| == 0 then 0.0 else Max(0.0, 100.0 - Mean(distances))
  }

  // ---------------------------------------------------------------------
  // Properties of the score
  // ---------------------------------------------------------------------

  /** A larger mean distance never gives a higher score. */
  lemma SimilarityAntitone(a: seq<nat>, b: seq<nat>)
    requires |a| > 0 && |b| > 0
    requires Mean(a) <= Mean(b)
    ensures CalculateSimilarity(b) <= CalculateSimilarity(a)
  {
  }

  lemma {:induction false} SumZero(d: seq<nat>)
    ensures Sum(d) == 0 <==> forall k :: 0 <= k < |d| ==> d[k] == 0
    decreases |d|
  {
    if d != [] {
      SumZero(d[1..]);
      assert forall k :: 1 <= k < |d| ==> d[k] == d[1..][k - 1];
    }
  }

  /** The full score of 100 is reached exactly when there is at least one
      match and every match has distance 0, as for an image compared with
      an exact copy of itself. */
  lemma PerfectScore(d: seq<nat>)
    ensures CalculateSimilarity(d) == 100.0 <==> |d| > 0 && forall k :: 0 <= k < |d| ==> d[k] == 0
  {
    SumZero(d);
    if |d| > 0 {
      var n := |d| as real;
      if CalculateSimilarity(d) == 100.0 {
        assert Mean(d) == 0.0;
        assert Sum(d) as real == Mean(d) * n;
      }
    }
  }

  /** Scaling by a positive count keeps the order of two reals. */
  lemma ScaleMonotone(a: real, b: real, n: real)
    requires n > 0.0
    ensures a <= b <==> a * n <= b * n
  {
    if a <= b {
      assert (b - a) * n >= 0.0;
    } else {
      assert (a - b) * n > 0.0;
    }
  }

  lemma MeanTimesCount(d: seq<nat>)
    requires |d| > 0
    ensures Sum(d) as real == Mean(d) * (|d| as real)
  {
  }

  /** Comparing the mean with a bound is comparing the sum with the bound
      scaled by the number of matches. */
  lemma MeanBound(d: seq<nat>, c: real)
    requires |d| > 0
    ensures Mean(d) <= c <==> Sum(d) as real <= c * (|d| as real)
  {
    MeanTimesCount(d);
    ScaleMonotone(Mean(d), c, |d| as real);
  }

  lemma MeanAtLeast(d: seq<nat>, c: real)
    requires |d| > 0
    ensures c <= Mean(d) <==> c * (|d| as real) <= Sum(d) as real
  {
    MeanTimesCount(d);
    ScaleMonotone(c, Mean(d), |d| as real);
  }

  /** The score is zero exactly when there is no match or the mean
      distance is at least 100. */
  lemma ZeroScore(d: seq<nat>)
    ensures CalculateSimilarity(d) == 0.0 <==> |d| == 0 || Sum(d) >= 100 * |d|
  {
    if |d| > 0 {
      assert CalculateSimilarity(d) == 0.0 <==> 100.0 <= Mean(d);
      MeanAtLeast(d, 100.0);
      assert (100 * |d|) as real == 100.0 * (|d| as real);
    }
  }

  /** Taking one element out of the middle takes its value off the sum. */
  lemma {:induction false} SumRemove(b: seq<nat>, i: nat)
    requires i < |b|
    ensures Sum(b) == b[i] + Sum(b[..i] + b[i + 1..])
    decreases i
  {
    var rest := b[..i] + b[i + 1..];
    if i == 0 {
      assert rest == b[1..];
    } else {
      SumRemove(b[1..], i - 1);
      assert rest[0] == b[0];
      assert rest[1..] == b[1..][..i - 1] + b[1..][i..];
    }
  }

  /** The sum, and so the score, does not depend on the order of the
      matches (`match_descriptors` sorts them by distance first). */
  lemma {:induction false} SumPermutation(a: seq<nat>, b: seq<nat>)
    requires multiset(a) == multiset(b)
    ensures Sum(a) == Sum(b)
    decreases |a|
  {
    if a != [] {
      assert a[0] in multiset(b);
      var i :| 0 <= i < |b| && b[i] == a[0];
      var rest := b[..i] + b[i + 1..];
      assert multiset(a[1..]) == multiset(rest) by {
        assert b == b[..i] + [b[i]] + b[i + 1..];
        assert a == [a[0]] + a[1..];
        assert multiset(a[1..]) == multiset(a) - multiset{a[0]};
        assert multiset(rest) == multiset(b) - multiset{b[i]};
      }
      SumPermutation(a[1..], rest);
      SumRemove(b, i);
    }
  }

  lemma SimilarityIgnoresOrder(a: seq<nat>, b: seq<nat>)
    requires multiset(a) == multiset(b)
    ensures CalculateSimilarity(a) == CalculateSimilarity(b)
  {
    SumPermutation(a, b);
    assert |a| == |multiset(a)| == |b|;
  }
}
