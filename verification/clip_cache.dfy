/** The reference clip and the run-long cache that maps a sample rate to the
    time-reversed clip at that rate, ready to be convolved with an input. */
module ClipCache {
  import opened Signal

  /** The reference clip as loaded once at start-up, at its native rate. */
  datatype Clip = Clip(samples: seq<real>, rate: SampleRate)

  /** Band-limited resampling of a clip from one rate to another. It is an
      external numeric routine, so the model takes it as a parameter. */
  type Resampler = (seq<real>, SampleRate, SampleRate) -> seq<real>

  type Cache = map<SampleRate, seq<real>>

  /** The outcome of one lookup: the cache afterwards, the reversed clip to
      correlate with, and whether the resampler had to run. */
  datatype Lookup = Lookup(cache: Cache, reversed: seq<real>, resampled: bool)

  /** Reference definition, without any cache, of the reversed clip used for
      an input at rate `sr`: the clip itself at its native rate, otherwise
      the clip resampled to `sr`. */
  function ReversedFor(clip: Clip, sr: SampleRate, resample: Resampler): seq<real>
  {
    if sr == clip.rate then Reverse(clip.samples)
    else Reverse(resample(clip.samples, clip.rate, sr))
  }

  /** Every entry of the cache is exactly what the reference definition
      gives for its rate, and the native rate is present. */
  predicate Valid(cache: Cache, clip: Clip, resample: Resampler)
  {
    && clip.rate in cache
    && forall sr :: sr in cache ==> cache[sr] == ReversedFor(clip, sr, resample)
  }

  /** The cache as seeded at start-up: a single entry for the clip's native
      rate, holding the clip reversed. */
  function Init(clip: Clip): (cache: Cache)
    ensures cache.Keys == {clip.rate}
    ensures |cache[clip.rate]| == |clip.samples|
    ensures Reverse(cache[clip.rate]) == clip.samples
  {
    ReverseInvolution(clip.samples);
    map[clip.rate := Reverse(clip.samples)]
  }

  /** Fetch the reversed clip for rate `sr`, resampling, reversing and
      storing it on a miss. */
  function Get(cache: Cache, clip: Clip, sr: SampleRate, resample: Resampler): (r: Lookup)
    ensures sr in r.cache && r.reversed == r.cache[sr]
    ensures r.resampled <==> sr !in cache
    ensures sr in cache ==> r.cache == cache && r.reversed == cache[sr]
    ensures sr !in cache ==> r.reversed == Reverse(resample(clip.samples, clip.rate, sr))
    ensures r.cache.Keys == cache.Keys + {sr}
    ensures sr !in cache ==> |r.cache| == |cache| + 1
    ensures forall k :: k in cache ==> r.cache[k] == cache[k]
  {
    if sr in cache then
      Lookup(cache, cache[sr], false)
    else
      var reversed := Reverse(resample(clip.samples, clip.rate, sr));
      var cache' := cache[sr := reversed];
      assert cache'.Keys == cache.Keys + {sr};
      Lookup(cache', reversed, true)
  }

  /** The seeded cache is valid. */
  lemma InitValid(clip: Clip, resample: Resampler)
    ensures Valid(Init(clip), clip, resample)
  {
  }

  /** A lookup on a valid cache returns what the reference definition
      gives, keeps the cache valid, and never resamples the native rate. */
  lemma GetAgreesWithReference(cache: Cache, clip: Clip, sr: SampleRate, resample: Resampler)
    requires Valid(cache, clip, resample)
    ensures Get(cache, clip, sr, resample).reversed == ReversedFor(clip, sr, resample)
    ensures Valid(Get(cache, clip, sr, resample).cache, clip, resample)
    ensures sr == clip.rate ==> !Get(cache, clip, sr, resample).resampled
  {
  }

  /** A second lookup of the same rate is a hit: it does not resample and
      returns the same clip and the same cache as the first. */
  lemma GetIdempotent(cache: Cache, clip: Clip, sr: SampleRate, resample: Resampler)
    ensures var first := Get(cache, clip, sr, resample);
            var second := Get(first.cache, clip, sr, resample);
            && !second.resampled
            && second.cache == first.cache
            && second.reversed == first.reversed
  {
  }
}
