/** Sample sequences and the elementary statistics the detector reads from
    a correlation trace. Samples and trace values are modelled as reals. */
module Signal {

  /** A sample rate in Hz; the audio loader always reports a positive one. */
  type SampleRate = r: int | 0 < r witness 44100

  /** Time reversal of a sequence (the script's `x[::-1]`). */
  function Reverse<T>(s: seq<T>): (r: seq<T>)
    ensures |r| == |s|
    ensures forall i :: 0 <= i < |s| ==> r[i] == s[|s| - 1 - i]
  {
    if |s| == 0 then [] else Reverse(s[1..]) + [s[0]]
  }

  /** Reversing twice gives back the original sequence. */
  lemma ReverseInvolution<T>(s: seq<T>)
    ensures Reverse(Reverse(s)) == s
  {
    var r := Reverse(Reverse(s));
    assert forall i :: 0 <= i < |s| ==> r[i] == s[i];
  }

  function Abs(x: real): (r: real)
    ensures 0.0 <= r
    ensures r == x || r == -x
  {
    if x < 0.0 then -x else x
  }

  /** Elementwise absolute value of a trace (the script's `np.abs`). */
  function Magnitudes(s: seq<real>): (r: seq<real>)
    ensures |r| == |s|
    ensures forall i :: 0 <= i < |s| ==> 0.0 <= r[i] && (r[i] == s[i] || r[i] == -s[i])
  {
    seq(|s|, i requires 0 <= i < |s| => Abs(s[i]))
  }

  predicate NonNegative(s: seq<real>)
  {
    forall i :: 0 <= i < |s| ==> 0.0 <= s[i]
  }

  /** A trace that is already non-negative is left unchanged by `Magnitudes`,
      so taking magnitudes is idempotent. */
  lemma MagnitudesIdempotent(s: seq<real>)
    ensures NonNegative(Magnitudes(s))
    ensures NonNegative(s) ==> Magnitudes(s) == s
    ensures Magnitudes(Magnitudes(s)) == Magnitudes(s)
  {
  }

  function Sum(s: seq<real>): real
  {
    if |s| == 0 then 0.0 else s[0] + Sum(s[1..])
  }

  /** Arithmetic mean (the script's `np.mean`): the sum over the length,
      never above the largest element. That it is also never below the
      smallest is `MeanWithinRange`; keeping that half out of this contract
      keeps it out of every proof that mentions a decision. */
  function Mean(s: seq<real>): (m: real)
    requires 0 < |s|
    ensures m <= Max(s)
  {
    SumBounds(s);
    DivideBounds(Sum(s), |s|, Min(s), Max(s));
    Sum(s) / (|s| as real)
  }

  /** Largest element (the script's `np.max`). */
  function Max(s: seq<real>): (m: real)
    requires 0 < |s|
    ensures forall i :: 0 <= i < |s| ==> s[i] <= m
    ensures exists i :: 0 <= i < |s| && s[i] == m
  {
    if |s| == 1 then s[0]
    else
      var rest := Max(s[1..]);
      assert forall i :: 1 <= i < |s| ==> s[i] == s[1..][i - 1];
      if s[0] >= rest then s[0] else rest
  }

  /** Smallest element. */
  function Min(s: seq<real>): (m: real)
    requires 0 < |s|
    ensures forall i :: 0 <= i < |s| ==> m <= s[i]
    ensures exists i :: 0 <= i < |s| && s[i] == m
  {
    if |s| == 1 then s[0]
    else
      var rest := Min(s[1..]);
      assert forall i :: 1 <= i < |s| ==> s[i] == s[1..][i - 1];
      if s[0] <= rest then s[0] else rest
  }

  /** Sum of squared deviations from `m`. */
  function SquaredDeviation(s: seq<real>, m: real): real
  {
    if |s| == 0 then 0.0 else (s[0] - m) * (s[0] - m) + SquaredDeviation(s[1..], m)
  }

  /** Population variance (the square of `np.std`, which uses ddof = 0). */
  function Variance(s: seq<real>): real
    requires 0 < |s|
  {
    SquaredDeviation(s, Mean(s)) / (|s| as real)
  }

  predicate Constant(s: seq<real>)
  {
    forall i, j :: 0 <= i < |s| && 0 <= j < |s| ==> s[i] == s[j]
  }

  /** `n` copies of `v` added together; keeps the summation lemmas linear. */
  function Repeat(n: nat, v: real): real
  {
    if n == 0 then 0.0 else v + Repeat(n - 1, v)
  }

  lemma {:induction false} RepeatIsProduct(n: nat, v: real)
    ensures Repeat(n, v) == (n as real) * v
  {
    if n > 0 {
      RepeatIsProduct(n - 1, v);
    }
  }

  lemma {:induction false} RepeatMonotone(n: nat, a: real, b: real)
    requires a <= b
    ensures Repeat(n, a) <= Repeat(n, b)
  {
    if n > 0 {
      RepeatMonotone(n - 1, a, b);
    }
  }

  lemma ScaleCancel(n: real, a: real, b: real)
    requires 0.0 < n && n * a <= n * b
    ensures a <= b
  {
  }

  lemma DivideBounds(x: real, n: nat, lo: real, hi: real)
    requires 0 < n
    requires Repeat(n, lo) <= x <= Repeat(n, hi)
    ensures lo <= x / (n as real) <= hi
  {
    RepeatIsProduct(n, lo);
    RepeatIsProduct(n, hi);
    var m := n as real;
    var q := x / m;
    assert x == m * q;
    assert m * lo <= m * q <= m * hi;
    ScaleCancel(m, q, hi);
    ScaleCancel(m, lo, q);
  }

  lemma {:induction false} SumBounds(s: seq<real>)
    requires 0 < |s|
    ensures Repeat(|s|, Min(s)) <= Sum(s) <= Repeat(|s|, Max(s))
  {
    if |s| > 1 {
      var t := s[1..];
      SumBounds(t);
      assert Min(s) <= Min(t) by {
        var k :| 0 <= k < |t| && t[k] == Min(t);
        assert s[k + 1] == t[k];
      }
      assert Max(t) <= Max(s) by {
        var k :| 0 <= k < |t| && t[k] == Max(t);
        assert s[k + 1] == t[k];
      }
      RepeatMonotone(|t|, Min(s), Min(t));
      RepeatMonotone(|t|, Max(t), Max(s));
    }
  }

  /** The mean lies between the smallest and the largest element; in
      particular `np.max(z) >= np.mean(z)` for every non-empty trace. */
  lemma MeanWithinRange(s: seq<real>)
    requires 0 < |s|
    ensures Min(s) <= Mean(s) <= Max(s)
  {
    SumBounds(s);
    DivideBounds(Sum(s), |s|, Min(s), Max(s));
  }

  lemma {:induction false} ConstantSum(s: seq<real>, c: real)
    requires forall i :: 0 <= i < |s| ==> s[i] == c
    ensures Sum(s) == Repeat(|s|, c)
    ensures SquaredDeviation(s, c) == 0.0
  {
    if |s| > 0 {
      ConstantSum(s[1..], c);
    }
  }

  /** A constant trace has its single value as maximum and mean, and zero
      variance (so its standard deviation is zero too). */
  lemma ConstantStatistics(s: seq<real>)
    requires 0 < |s| && Constant(s)
    ensures Max(s) == s[0] && Mean(s) == s[0]
    ensures Variance(s) == 0.0
  {
    ConstantSum(s, s[0]);
    DivideBounds(Sum(s), |s|, s[0], s[0]);
  }
}
