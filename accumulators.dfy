/** The two running statistics of the simulation, `Mean` and `Max`, each
    fed one integer sample at a time. Both start from the value 0. */
module Accumulators {

  /** C++ `int` division: the quotient truncated toward zero, so its
      magnitude is the Euclidean quotient of the magnitudes and its sign is
      the dividend's. */
  function TruncDiv(a: int, b: int): (q: int)
    requires 0 < b
    ensures 0 <= a ==> 0 <= q && q * b <= a < (q + 1) * b
    ensures a < 0 ==> q <= 0 && -q * b <= -a < (-q + 1) * b
  {
    if 0 <= a then a / b else -((-a) / b)
  }

  /** Dividing by at least 2 moves a value by no more than the whole distance. */
  lemma TruncDivShrinks(a: int, b: int)
    requires 2 <= b
    ensures 0 <= a ==> 0 <= TruncDiv(a, b) <= a
    ensures a < 0 ==> a <= TruncDiv(a, b) <= 0
  {
    var q := TruncDiv(a, b);
    if 0 <= a {
      assert q <= q * b;
    } else {
      assert -q <= -q * b;
    }
  }

  /** One step of `Mean::sample`: `n` is the sample count after `N++`; the
      value moves toward the sample by the truncated `(sample - value) / (n + 1)`
      and so lands between the old value and the sample. */
  function MeanStep(v: int, n: int, x: int): (r: int)
    requires 1 <= n
    ensures v <= x ==> v <= r <= x
    ensures x <= v ==> x <= r <= v
  {
    TruncDivShrinks(x - v, n + 1);
    v + TruncDiv(x - v, n + 1)
  }

  /** The value and sample count of a `Mean` after the given samples. */
  function MeanOf(samples: seq<int>): (r: (int, nat))
    ensures r.1 == |samples|
  {
    if samples == [] then (0, 0)
    else
      var prev := MeanOf(samples[..|samples| - 1]);
      (MeanStep(prev.0, prev.1 + 1, samples[|samples| - 1]), prev.1 + 1)
  }

  /** The largest of 0 and the samples: what `Max` holds after them. */
  function MaxOf(samples: seq<int>): (r: int)
    ensures 0 <= r
    ensures samples != [] ==> samples[|samples| - 1] <= r
  {
    if samples == [] then 0
    else
      var m := MaxOf(samples[..|samples| - 1]);
      var x := samples[|samples| - 1];
      if x > m then x else m
  }

  /** The smallest of 0 and the samples. */
  function MinOf(samples: seq<int>): int {
    if samples == [] then 0
    else
      var m := MinOf(samples[..|samples| - 1]);
      var x := samples[|samples| - 1];
      if x < m then x else m
  }

  /** 0 and every sample are at most `MaxOf`, at least `MinOf`. */
  lemma {:induction false} Extremes(samples: seq<int>)
    ensures MinOf(samples) <= 0 <= MaxOf(samples)
    ensures forall i :: 0 <= i < |samples| ==> MinOf(samples) <= samples[i] <= MaxOf(samples)
    decreases |samples|
  {
    if samples != [] {
      var prefix := samples[..|samples| - 1];
      Extremes(prefix);
      forall i | 0 <= i < |samples| - 1
        ensures MinOf(samples) <= samples[i] <= MaxOf(samples)
      {
        assert samples[i] == prefix[i];
      }
    }
  }

  /** `MaxOf` is attained: it is the starting 0 or one of the samples. */
  lemma {:induction false} MaxOfAttained(samples: seq<int>)
    ensures MaxOf(samples) == 0 || exists i :: 0 <= i < |samples| && samples[i] == MaxOf(samples)
    decreases |samples|
  {
    if samples != [] {
      var prefix := samples[..|samples| - 1];
      MaxOfAttained(prefix);
      if MaxOf(samples) != samples[|samples| - 1] && MaxOf(samples) != 0 {
        var i :| 0 <= i < |prefix| && prefix[i] == MaxOf(prefix);
        assert samples[i] == prefix[i];
      }
    }
  }

  /** The mean never leaves the range spanned by 0 and the samples, and
      counts every sample. */
  lemma {:induction false} MeanOfBounds(samples: seq<int>)
    ensures MinOf(samples) <= MeanOf(samples).0 <= MaxOf(samples)
    ensures MeanOf(samples).1 == |samples|
    decreases |samples|
  {
    if samples != [] {
      MeanOfBounds(samples[..|samples| - 1]);
    }
  }

  /** The samples 2, 4, 6 leave the values 1, 2, 3. */
  lemma MeanExample()
    ensures MeanOf([2]) == (1, 1)
    ensures MeanOf([2, 4]) == (2, 2)
    ensures MeanOf([2, 4, 6]) == (3, 3)
  {
    assert [2, 4][..1] == [2];
    assert [2, 4, 6][..2] == [2, 4];
  }

  /** A negative step truncates toward zero: the sample -1 leaves 0, where
      Euclidean division, (-1) / 2 == -1, would leave -1. */
  lemma MeanTruncates()
    ensures MeanOf([-1]) == (0, 1)
  {
    assert [-1][..0] == [];
    assert (-1) / 2 == -1;
  }

  /** The samples 3, 1, 7, 2 leave 7; no sample leaves 0, and so do only
      negative ones. */
  lemma MaxExample()
    ensures MaxOf([3, 1, 7, 2]) == 7
    ensures MaxOf([]) == 0
    ensures MaxOf([-5, -2]) == 0
  {
    assert [3, 1, 7, 2][..3] == [3, 1, 7];
    assert [3, 1, 7][..2] == [3, 1];
    assert [3, 1][..1] == [3];
    assert [-5, -2][..1] == [-5];
  }

  /** As written, `Mean` divides by N + 1 after incrementing N: one sample
      of 10 leaves 5 and two leave 6, not their mean 10. */
  lemma MeanOfConstantStream()
    ensures MeanOf([10]).0 == 5
    ensures MeanOf([10, 10]).0 == 6
  {
    assert [10, 10][..1] == [10];
  }

  /** As written, a long stream of the constant 20 settles at 15: once the
      value is 15 the step (20 - 15) / (N + 1) truncates to 0. */
  lemma {:induction false} MeanOfTwenties(samples: seq<int>)
    requires forall i :: 0 <= i < |samples| ==> samples[i] == 20
    ensures |samples| == 1 ==> MeanOf(samples).0 == 10
    ensures |samples| == 2 ==> MeanOf(samples).0 == 13
    ensures |samples| == 3 ==> MeanOf(samples).0 == 14
    ensures |samples| >= 4 ==> MeanOf(samples).0 == 15
    decreases |samples|
  {
    if samples != [] {
      var prefix := samples[..|samples| - 1];
      MeanOfTwenties(prefix);
      assert samples[|samples| - 1] == 20;
      if |prefix| == 0 {
        assert MeanOf(prefix) == (0, 0);
      }
    }
  }

  /** The running mean the divisor N gives: `value += (sample - value) / N`. */
  function RunningMeanOf(samples: seq<int>): (r: (int, nat))
    ensures r.1 == |samples|
  {
    if samples == [] then (0, 0)
    else
      var prev := RunningMeanOf(samples[..|samples| - 1]);
      var n := prev.1 + 1;
      (prev.0 + TruncDiv(samples[|samples| - 1] - prev.0, n), n)
  }

  /** A stream of equal samples has exactly that mean. */
  lemma {:induction false} RunningMeanOfConstant(samples: seq<int>, c: int)
    requires forall i :: 0 <= i < |samples| ==> samples[i] == c
    ensures samples != [] ==> RunningMeanOf(samples).0 == c
    decreases |samples|
  {
    if samples != [] {
      var prefix := samples[..|samples| - 1];
      RunningMeanOfConstant(prefix, c);
      assert samples[|samples| - 1] == c;
    }
  }

  /** The samples 2, 4, 6 leave their mean 4. */
  lemma RunningMeanExample()
    ensures RunningMeanOf([2, 4, 6]) == (4, 3)
  {
    assert [2, 4, 6][..2] == [2, 4];
    assert [2, 4][..1] == [2];
  }

  /** `struct Mean`: a truncating running average; `samples` is the history
      it has been fed. */
  class Mean {
    var value: int
    var n: int
    ghost var samples: seq<int>

    ghost predicate Valid()
      reads this
    {
      value == MeanOf(samples).0 && n == MeanOf(samples).1
    }

    constructor ()
      ensures value == 0 && n == 0 && samples == []
      ensures Valid()
    {
      value := 0;
      n := 0;
      samples := [];
    }

    /** `Mean::sample`: the count goes up by exactly one and the value moves
        to somewhere between its old value and the sample. */
    method Sample(x: int)
      requires Valid()
      modifies this
      ensures samples == old(samples) + [x]
      ensures Valid()
      ensures n == old(n) + 1
      ensures old(value) <= x ==> old(value) <= value <= x
      ensures x <= old(value) ==> x <= value <= old(value)
    {
      n := n + 1;
      value := value + TruncDiv(x - value, n + 1);
      samples := samples + [x];
      assert samples[..|samples| - 1] == old(samples);
      TruncDivShrinks(x - old(value), n + 1);
    }
  }

  /** `struct Max`: the largest sample so far, starting from 0. */
  class Max {
    var value: int
    ghost var samples: seq<int>

    ghost predicate Valid()
      reads this
    {
      value == MaxOf(samples)
    }

    constructor ()
      ensures value == 0 && samples == []
      ensures Valid()
    {
      value := 0;
      samples := [];
    }

    /** `Max::sample`: the value never decreases and is at least the sample;
        it changes only to the sample. */
    method Sample(x: int)
      requires Valid()
      modifies this
      ensures samples == old(samples) + [x]
      ensures Valid()
      ensures old(value) <= value && x <= value
      ensures value == old(value) || value == x
    {
      if x > value {
        value := x;
      }
      samples := samples + [x];
      assert samples[..|samples| - 1] == old(samples);
    }
  }
}
