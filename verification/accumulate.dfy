/** Running accumulators as the loops keep them: a total that starts at 0 and a
    maximum that starts at 0 and is replaced only by a strictly larger sample.
    Both are folded from the front, so appending a sample is one more step. */
module Accumulate {

  function Sum(s: seq<int>): int
  {
    if s == [] then 0 else Sum(s[..|s| - 1]) + s[|s| - 1]
  }

  function MaxOf(s: seq<int>): int
  {
    if s == [] then 0
    else
      var m := MaxOf(s[..|s| - 1]);
      if s[|s| - 1] > m then s[|s| - 1] else m
  }

  /** Appending a sample is one more step of both accumulators. */
  lemma AppendStep(s: seq<int>, x: int)
    ensures Sum(s + [x]) == Sum(s) + x
    ensures MaxOf(s + [x]) == if x > MaxOf(s) then x else MaxOf(s)
  {
    assert (s + [x])[..|s|] == s;
  }

  predicate NonNegative(s: seq<int>)
  {
    forall i :: 0 <= i < |s| ==> s[i] >= 0
  }

  /** The running maximum is never negative, bounds every sample, and is either
      the starting 0 or one of the samples. */
  lemma {:induction false} MaxOfBounds(s: seq<int>)
    ensures MaxOf(s) >= 0
    ensures forall i :: 0 <= i < |s| ==> s[i] <= MaxOf(s)
    ensures MaxOf(s) == 0 || MaxOf(s) in s
  {
    if s != [] {
      var p := s[..|s| - 1];
      MaxOfBounds(p);
      assert forall i :: 0 <= i < |p| ==> s[i] == p[i];
      assert MaxOf(p) in p ==> MaxOf(p) in s;
    }
  }

  lemma {:induction false} SumNonNegative(s: seq<int>)
    requires NonNegative(s)
    ensures Sum(s) >= 0
  {
    if s != [] {
      SumNonNegative(s[..|s| - 1]);
    }
  }

  /** With non-negative samples the maximum never exceeds the total. */
  lemma {:induction false} MaxAtMostSum(s: seq<int>)
    requires NonNegative(s)
    ensures MaxOf(s) <= Sum(s)
  {
    if s != [] {
      var p := s[..|s| - 1];
      MaxAtMostSum(p);
      SumNonNegative(p);
    }
  }

  /** The total of n samples is at most n times their maximum, so the average
      (total / n) never exceeds the maximum. */
  lemma {:induction false} SumAtMostCountTimesMax(s: seq<int>)
    ensures Sum(s) <= |s| * MaxOf(s)
  {
    if s != [] {
      var p := s[..|s| - 1];
      SumAtMostCountTimesMax(p);
      MaxOfBounds(p);
      MaxOfBounds(s);
      ScaleMonotone(|p|, MaxOf(p), MaxOf(s));
      assert Sum(s) == Sum(p) + s[|s| - 1];
      assert s[|s| - 1] <= MaxOf(s);
      assert |s| * MaxOf(s) == |p| * MaxOf(s) + MaxOf(s);
    }
  }

  lemma ScaleMonotone(n: nat, a: int, b: int)
    requires a <= b
    ensures n * a <= n * b
  {
    assert n * b - n * a == n * (b - a);
  }
}
