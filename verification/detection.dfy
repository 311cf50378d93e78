/** The per-file decision: from a correlation magnitude trace to "keep, and
    trim this many seconds" or "no trim". */
module Detection {
  import opened Signal

  /** A file is trimmed only if the jingle starts later than this. */
  const MinSeekSeconds: real := 10.0

  /** Everything the script logs for one file. `eventStart` is in samples
      and `seek` in seconds. */
  datatype Detection = Detection(
    keep: bool,
    seek: real,
    eventStart: nat,
    eventThreshold: real,
    fpThreshold: real,
    zmax: real,
    zstd: real,
    zmean: real)

  /** `np.percentile`, `np.argmax` and `np.max` raise on an empty trace. */
  datatype DetectError = EmptyTrace

  datatype Result<T> = Ok(value: T) | Err(error: DetectError)

  /** Least index at or after `i` whose value reaches `t`, or `|z|` if none. */
  function FindFrom(z: seq<real>, t: real, i: nat): (k: nat)
    requires i <= |z|
    ensures i <= k <= |z|
    ensures forall j :: i <= j < k ==> z[j] < t
    ensures k < |z| ==> t <= z[k]
    decreases |z| - i
  {
    if i == |z| then |z|
    else if t <= z[i] then i
    else FindFrom(z, t, i + 1)
  }

  /** Index of the first sample at or above `t`; 0 when there is none, as
      `argmax` returns for an all-false mask. */
  function FirstAtLeast(z: seq<real>, t: real): (pos: nat)
    ensures pos <= |z| && (0 < |z| ==> pos < |z|)
    ensures forall j :: 0 <= j < pos ==> z[j] < t
    ensures (exists i :: 0 <= i < |z| && t <= z[i]) <==> (pos < |z| && t <= z[pos])
    ensures (forall i :: 0 <= i < |z| ==> z[i] < t) ==> pos == 0
  {
    var k := FindFrom(z, t, 0);
    if k == |z| then 0 else k
  }

  /** Left-to-right scan with early exit that computes `FirstAtLeast`. */
  method FindEvent(z: seq<real>, t: real) returns (pos: nat)
    ensures pos == FirstAtLeast(z, t)
    ensures forall j :: 0 <= j < pos ==> z[j] < t
    ensures (exists j :: 0 <= j < |z| && t <= z[j]) ==> pos < |z| && t <= z[pos]
  {
    var i := 0;
    while i < |z|
      invariant i <= |z|
      invariant forall j :: 0 <= j < i ==> z[j] < t
    {
      if t <= z[i] {
        return i;
      }
      i := i + 1;
    }
    return 0;
  }

  /** Estimated onset of the jingle: the crossing moved back by half the
      clip length, floored at 0. */
  function EventStart(pos: nat, clipLen: nat): (start: nat)
    ensures start <= pos
    ensures pos - clipLen / 2 <= start
    ensures start == 0 || start == pos - clipLen / 2
  {
    if pos - clipLen / 2 > 0 then pos - clipLen / 2 else 0
  }

  /** Seconds into the file of sample number `start`. */
  function Seconds(start: nat, sr: SampleRate): (t: real)
    ensures 0.0 <= t
    ensures t * (sr as real) == start as real
  {
    (start as real) / (sr as real)
  }

  /** The detection rule for one file. `eventThreshold` is the percentile of
      the trace and `zstd` its standard deviation, both computed outside. */
  function Decide(z: seq<real>, clipLen: nat, sr: SampleRate, eventThreshold: real,
                  zstd: real, factor: int): (r: Result<Detection>)
    ensures r.Err? <==> |z| == 0
    ensures r.Ok? ==>
      var d := r.value;
      && d.eventStart == EventStart(FirstAtLeast(z, eventThreshold), clipLen)
      && d.eventThreshold == eventThreshold
      && d.zmax == Max(z) && d.zmean == Mean(z) && d.zstd == zstd
      && d.fpThreshold == zstd * (factor as real) + Mean(z)
      && 0.0 <= d.seek
      && (d.keep <==> d.zmax > d.fpThreshold && Seconds(d.eventStart, sr) > MinSeekSeconds)
      && (d.keep ==> d.seek == Seconds(d.eventStart, sr))
      && (!d.keep ==> d.seek == 0.0)
  {
    if |z| == 0 then Err(EmptyTrace)
    else
      var pos := FirstAtLeast(z, eventThreshold);
      var start := EventStart(pos, clipLen);
      var seek := Seconds(start, sr);
      var zmax := Max(z);
      var zmean := Mean(z);
      var fpThreshold := zstd * (factor as real) + zmean;
      var keep := zmax > fpThreshold && seek > MinSeekSeconds;
      Ok(Detection(keep, if keep then seek else 0.0, start,
                   eventThreshold, fpThreshold, zmax, zstd, zmean))
  }

  /** Any percentile of the trace is at most its maximum, and for such a
      threshold the crossing exists; a threshold at or below the minimum is
      crossed by the very first sample. */
  lemma PercentileIsCrossed(z: seq<real>, t: real)
    requires 0 < |z|
    requires t <= Max(z)
    ensures FirstAtLeast(z, t) < |z| && t <= z[FirstAtLeast(z, t)]
    ensures t <= Min(z) ==> FirstAtLeast(z, t) == 0
  {
    var k :| 0 <= k < |z| && z[k] == Max(z);
    assert t <= z[k];
  }

  /** When the crossing lies within half a clip of the trace start (in
      particular whenever the clip at the input's rate is at least about
      twice as long as the input) the onset collapses to 0, so the file is
      not trimmed. */
  lemma ShortInputNotTrimmed(z: seq<real>, clipLen: nat, sr: SampleRate, t: real,
                             zstd: real, factor: int)
    requires 0 < |z| && |z| <= clipLen / 2 + 1
    ensures Decide(z, clipLen, sr, t, zstd, factor).value.eventStart == 0
    ensures !Decide(z, clipLen, sr, t, zstd, factor).value.keep
    ensures Decide(z, clipLen, sr, t, zstd, factor).value.seek == 0.0
  {
  }

  /** The converse of `ShortInputNotTrimmed`: when the trace is longer than
      half a clip plus one sample and only its last sample reaches the
      threshold, the onset is that sample moved back by half a clip, which
      is positive. This holds even when the clip is longer than the input. */
  lemma CrossingAtEndStartsLate(z: seq<real>, clipLen: nat, sr: SampleRate, t: real,
                                zstd: real, factor: int)
    requires clipLen / 2 + 1 < |z|
    requires forall j :: 0 <= j < |z| - 1 ==> z[j] < t
    requires t <= z[|z| - 1]
    ensures Decide(z, clipLen, sr, t, zstd, factor).value.eventStart == |z| - 1 - clipLen / 2
    ensures 0 < Decide(z, clipLen, sr, t, zstd, factor).value.eventStart
  {
    assert FirstAtLeast(z, t) == |z| - 1;
  }

  /** A ten-sample trace crossed at its last sample, searched with an
      eleven-sample clip: the clip is longer than the input, yet the onset
      is sample 4. */
  lemma LongerClipCanStillStartLate(sr: SampleRate, zstd: real, factor: int)
    ensures Decide([0.0, 0.0, 0.0, 0.0, 0.0, 0.0, 0.0, 0.0, 0.0, 1.0], 11, sr, 1.0, zstd, factor)
              .value.eventStart == 4
  {
    CrossingAtEndStartsLate([0.0, 0.0, 0.0, 0.0, 0.0, 0.0, 0.0, 0.0, 0.0, 1.0], 11, sr, 1.0, zstd, factor);
  }

  /** A kept file is trimmed at the estimated onset, which is more than ten
      seconds of samples into the file; so the seek is 0 exactly when the
      file is not kept, which is when the trimmer copies it unchanged. */
  lemma KeptMeansLateOnset(z: seq<real>, clipLen: nat, sr: SampleRate, t: real,
                           zstd: real, factor: int)
    requires 0 < |z|
    ensures var d := Decide(z, clipLen, sr, t, zstd, factor).value;
            && (d.keep ==> d.seek > MinSeekSeconds && d.eventStart > 10 * sr)
            && (d.seek == 0.0 <==> !d.keep)
  {
    var d := Decide(z, clipLen, sr, t, zstd, factor).value;
    if d.keep {
      LateSecondsMeansLateSample(d.eventStart, sr);
    }
  }

  lemma LateSecondsMeansLateSample(start: nat, sr: SampleRate)
    requires Seconds(start, sr) > MinSeekSeconds
    ensures start > 10 * sr
  {
    var s, m := Seconds(start, sr), sr as real;
    assert s * m == start as real;
    assert 10.0 * m < s * m;
  }

  /** With a non-negative factor and standard deviation the false-positive
      bound is at least the mean; a constant (for example silent) trace has
      its maximum equal to its mean and is therefore never kept. */
  lemma ConstantTraceRejected(z: seq<real>, clipLen: nat, sr: SampleRate, t: real,
                              zstd: real, factor: int)
    requires 0 < |z| && Constant(z)
    requires 0.0 <= zstd && 0 <= factor
    ensures Decide(z, clipLen, sr, t, zstd, factor).value.fpThreshold >= Max(z)
    ensures !Decide(z, clipLen, sr, t, zstd, factor).value.keep
    ensures Decide(z, clipLen, sr, t, zstd, factor).value.seek == 0.0
  {
    ConstantStatistics(z);
    ScaleNonNegative(zstd, factor as real);
  }

  lemma ScaleNonNegative(a: real, b: real)
    requires 0.0 <= a && 0.0 <= b
    ensures 0.0 <= a * b
  {
  }

  /** Raising the false-positive factor can only turn a keep into a reject:
      a file kept under a factor is kept under every smaller factor. */
  lemma KeepMonotoneInFactor(z: seq<real>, clipLen: nat, sr: SampleRate, t: real,
                             zstd: real, lower: int, higher: int)
    requires 0 < |z|
    requires 0.0 <= zstd && lower <= higher
    ensures Decide(z, clipLen, sr, t, zstd, higher).value.keep ==>
            Decide(z, clipLen, sr, t, zstd, lower).value.keep
  {
    KeepOrdered(Decide(z, clipLen, sr, t, zstd, lower).value,
                Decide(z, clipLen, sr, t, zstd, higher).value,
                sr, zstd, lower as real, higher as real, Mean(z));
  }

  /** Two decisions on the same trace whose false-positive thresholds differ
      only in the factor: the one with the smaller factor keeps whenever the
      other does. */
  lemma KeepOrdered(dl: Detection, dh: Detection, sr: SampleRate,
                    zstd: real, lower: real, higher: real, zmean: real)
    requires 0.0 <= zstd && lower <= higher
    requires dl.eventStart == dh.eventStart && dl.zmax == dh.zmax
    requires dl.fpThreshold == zstd * lower + zmean
    requires dh.fpThreshold == zstd * higher + zmean
    requires dl.keep <==> dl.zmax > dl.fpThreshold && Seconds(dl.eventStart, sr) > MinSeekSeconds
    requires dh.keep <==> dh.zmax > dh.fpThreshold && Seconds(dh.eventStart, sr) > MinSeekSeconds
    ensures dh.keep ==> dl.keep
  {
    ScaleNonNegative(zstd, higher - lower);
    assert zstd * higher == zstd * lower + zstd * (higher - lower);
  }

  /** Only the first crossing matters: whatever follows it in the trace,
      including a second occurrence of the jingle, leaves the onset alone. */
  lemma OnsetIgnoresLaterSamples(z: seq<real>, tail: seq<real>, t: real, clipLen: nat)
    requires exists i :: 0 <= i < |z| && t <= z[i]
    ensures FirstAtLeast(z + tail, t) == FirstAtLeast(z, t)
    ensures EventStart(FirstAtLeast(z + tail, t), clipLen) == EventStart(FirstAtLeast(z, t), clipLen)
  {
    var p := FirstAtLeast(z, t);
    var q := FirstAtLeast(z + tail, t);
    assert (z + tail)[p] == z[p];
    assert forall j :: 0 <= j < p ==> (z + tail)[j] == z[j];
  }
}
