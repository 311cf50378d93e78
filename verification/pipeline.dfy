/** The per-file loop of the detector: look up (or build) the reversed clip
    for the file's rate, correlate, and decide; files are processed in order
    and the first failure ends the run. */
module Pipeline {
  import opened Signal
  import opened ClipCache
  import opened Detection

  /** One decoded input file: mono samples and the rate they were read at. */
  datatype AudioFile = AudioFile(samples: seq<real>, rate: SampleRate)

  /** The numeric routines the decision is built on, all external:
      resampling, "same"-mode FFT convolution, the configured percentile of
      a trace, and its standard deviation. */
  datatype Estimators = Estimators(
    resample: Resampler,
    correlate: (seq<real>, seq<real>) -> seq<real>,
    percentile: seq<real> -> real,
    std: seq<real> -> real)

  /** "same" mode: the convolution is as long as its first argument, except
      that an empty second argument gives an empty result. */
  ghost predicate SameMode(est: Estimators)
  {
    forall a, b :: |est.correlate(a, b)| == (if |b| == 0 then 0 else |a|)
  }

  /** The correlation magnitude trace of a file against a reversed clip. */
  function Trace(file: AudioFile, reversed: seq<real>, est: Estimators): (z: seq<real>)
    ensures NonNegative(z)
    ensures SameMode(est) ==> |z| == (if |reversed| == 0 then 0 else |file.samples|)
  {
    Magnitudes(est.correlate(file.samples, reversed))
  }

  /** The decision for a file given the reversed clip at its rate. */
  function DetectWith(file: AudioFile, reversed: seq<real>, est: Estimators, factor: int): (r: Result<Detection>)
    ensures SameMode(est) ==> (r.Err? <==> |file.samples| == 0 || |reversed| == 0)
    ensures SameMode(est) && r.Ok? ==> r.value.eventStart < |file.samples|
    ensures r.Ok? ==> 0.0 <= r.value.seek
  {
    var z := Trace(file, reversed, est);
    Decide(z, |reversed|, file.rate, est.percentile(z), est.std(z), factor)
  }

  /** The per-file decision as a function of the file and the reversed clip
      at its rate. The run below is stated for any such function. */
  type Detector = (AudioFile, seq<real>) -> Result<Detection>

  function DetectorOf(est: Estimators, factor: int): Detector
  {
    (file, reversed) => DetectWith(file, reversed, est, factor)
  }

  /** One iteration of the loop: the cache afterwards, the decision, and
      whether the clip had to be resampled for this file. */
  datatype Step = Step(cache: Cache, result: Result<Detection>, resampled: bool)

  function ProcessFile(cache: Cache, clip: Clip, file: AudioFile, resample: Resampler, detect: Detector): (r: Step)
    ensures r.cache.Keys == cache.Keys + {file.rate}
    ensures r.resampled <==> file.rate !in cache
    ensures forall k :: k in cache ==> r.cache[k] == cache[k]
    ensures r.result == detect(file, r.cache[file.rate])
  {
    var lookup := Get(cache, clip, file.rate, resample);
    Step(lookup.cache, detect(file, lookup.reversed), lookup.resampled)
  }

  /** Reference decision for one file, with the reversed clip computed
      afresh instead of taken from the cache. */
  function Reference(clip: Clip, file: AudioFile, resample: Resampler, detect: Detector): Result<Detection>
  {
    detect(file, ReversedFor(clip, file.rate, resample))
  }

  /** Memoisation is invisible: on a valid cache, a step decides exactly as
      if the reversed clip had been computed afresh, and leaves the cache
      valid. */
  lemma ProcessFileAgreesWithReference(cache: Cache, clip: Clip, file: AudioFile,
                                       resample: Resampler, detect: Detector)
    requires Valid(cache, clip, resample)
    ensures var r := ProcessFile(cache, clip, file, resample, detect);
            && Valid(r.cache, clip, resample)
            && r.result == Reference(clip, file, resample, detect)
  {
    GetAgreesWithReference(cache, clip, file.rate, resample);
  }

  /** The sample rates of `files[i..j]`. */
  function Rates(files: seq<AudioFile>, i: nat, j: nat): set<SampleRate>
    requires i <= j <= |files|
    decreases j - i
  {
    if i == j then {} else {files[i].rate} + Rates(files, i + 1, j)
  }

  /** No rate occurs twice. */
  predicate Distinct(rates: seq<SampleRate>)
  {
    forall i, j :: 0 <= i < j < |rates| ==> rates[i] != rates[j]
  }

  /** `resampled` holds exactly the rates of `rates` that are not in `cached`. */
  ghost predicate ResampledExactly(resampled: seq<SampleRate>, rates: set<SampleRate>, cached: set<SampleRate>)
  {
    forall rate :: rate in resampled <==> rate in rates && rate !in cached
  }

  /** The outcome of a run over a list of files: one result per processed
      file, and `end`, the index just past the last processed file. */
  datatype Run = Run(results: seq<Result<Detection>>, resampled: seq<SampleRate>, cache: Cache, end: nat)

  /** Process `files[i..]` in order starting from `cache`, stopping after
      the first file whose decision is an error (the exception that ends
      the script's loop). `resampled` lists, in order, the rates the clip
      had to be resampled to. */
  function RunFrom(cache: Cache, clip: Clip, files: seq<AudioFile>, i: nat,
                   resample: Resampler, detect: Detector): (r: Run)
    requires i <= |files|
    ensures i <= r.end <= |files| && |r.results| == r.end - i
    decreases |files| - i
  {
    if i == |files| then Run([], [], cache, i)
    else
      var step := ProcessFile(cache, clip, files[i], resample, detect);
      var here := if step.resampled then [files[i].rate] else [];
      if step.result.Err? then
        Run([step.result], here, step.cache, i + 1)
      else
        var rest := RunFrom(step.cache, clip, files, i + 1, resample, detect);
        Run([step.result] + rest.results, here + rest.resampled, rest.cache, rest.end)
  }

  /** One unfolding of `RunFrom` on a non-empty remainder. */
  lemma RunStep(cache: Cache, clip: Clip, files: seq<AudioFile>, i: nat, resample: Resampler, detect: Detector)
    requires i < |files|
    ensures var step := ProcessFile(cache, clip, files[i], resample, detect);
            var here := if step.resampled then [files[i].rate] else [];
            var r := RunFrom(cache, clip, files, i, resample, detect);
            && (step.result.Err? ==> r == Run([step.result], here, step.cache, i + 1))
            && (step.result.Ok? ==>
                  var rest := RunFrom(step.cache, clip, files, i + 1, resample, detect);
                  r == Run([step.result] + rest.results, here + rest.resampled, rest.cache, rest.end))
  {
  }

  lemma RatesUnfold(files: seq<AudioFile>, i: nat, j: nat)
    requires i < j <= |files|
    ensures Rates(files, i, j) == {files[i].rate} + Rates(files, i + 1, j)
    ensures Rates(files, j, j) == {}
  {
  }

  lemma OkCons(first: Result<Detection>, later: seq<Result<Detection>>)
    requires first.Ok?
    requires forall k :: 0 <= k < |later| - 1 ==> later[k].Ok?
    ensures forall k :: 0 <= k < |[first] + later| - 1 ==> ([first] + later)[k].Ok?
    ensures 0 < |later| ==> ([first] + later)[|later|] == later[|later| - 1]
  {
    var all := [first] + later;
    forall k | 0 <= k < |all| - 1
      ensures all[k].Ok?
    {
      if k > 0 {
        assert all[k] == later[k - 1];
      }
    }
  }

  /** A run decides every file up to and including the first error, and no
      further: all results but the last are decisions, and the run ends
      early only on an error. */
  lemma {:induction false} RunStopsAtFirstError(cache: Cache, clip: Clip, files: seq<AudioFile>, i: nat,
                                                resample: Resampler, detect: Detector)
    requires i <= |files|
    ensures var r := RunFrom(cache, clip, files, i, resample, detect);
            && (i < |files| ==> 0 < |r.results|)
            && (forall k :: 0 <= k < |r.results| - 1 ==> r.results[k].Ok?)
            && (r.end < |files| ==> r.results[|r.results| - 1].Err?)
    decreases |files| - i
  {
    if i < |files| {
      RunStep(cache, clip, files, i, resample, detect);
      var step := ProcessFile(cache, clip, files[i], resample, detect);
      if step.result.Ok? {
        RunStopsAtFirstError(step.cache, clip, files, i + 1, resample, detect);
        var rest := RunFrom(step.cache, clip, files, i + 1, resample, detect);
        OkCons(step.result, rest.results);
      }
    }
  }

  /** `cache` has an entry exactly for the rates in `before` or in `rates`. */
  ghost predicate CachedExactly(cache: Cache, before: set<SampleRate>, rates: set<SampleRate>)
  {
    forall rate :: rate in cache <==> rate in before || rate in rates
  }

  lemma KeysStep(rate: SampleRate, before: set<SampleRate>, after: set<SampleRate>,
                 final: Cache, laterRates: set<SampleRate>)
    requires after == before + {rate}
    requires CachedExactly(final, after, laterRates)
    ensures CachedExactly(final, before, {rate} + laterRates)
  {
  }

  /** The cache of a run holds one entry for every starting rate and every
      rate among the processed files, and nothing else. */
  lemma {:induction false} RunCacheKeys(cache: Cache, clip: Clip, files: seq<AudioFile>, i: nat,
                                        resample: Resampler, detect: Detector)
    requires i <= |files|
    ensures var r := RunFrom(cache, clip, files, i, resample, detect);
            CachedExactly(r.cache, cache.Keys, Rates(files, i, r.end))
    decreases |files| - i
  {
    if i < |files| {
      RunStep(cache, clip, files, i, resample, detect);
      var step := ProcessFile(cache, clip, files[i], resample, detect);
      if step.result.Err? {
        RatesUnfold(files, i, i + 1);
        KeysStep(files[i].rate, cache.Keys, step.cache.Keys, step.cache, {});
      } else {
        RunCacheKeys(step.cache, clip, files, i + 1, resample, detect);
        var rest := RunFrom(step.cache, clip, files, i + 1, resample, detect);
        RatesUnfold(files, i, rest.end);
        KeysStep(files[i].rate, cache.Keys, step.cache.Keys, rest.cache, Rates(files, i + 1, rest.end));
      }
    }
  }

  /** A run never replaces an entry: the starting entries come out unchanged. */
  lemma {:induction false} RunKeepsEntries(cache: Cache, clip: Clip, files: seq<AudioFile>, i: nat,
                                           resample: Resampler, detect: Detector)
    requires i <= |files|
    ensures var r := RunFrom(cache, clip, files, i, resample, detect);
            forall k :: k in cache ==> k in r.cache && r.cache[k] == cache[k]
    decreases |files| - i
  {
    if i < |files| {
      RunStep(cache, clip, files, i, resample, detect);
      var step := ProcessFile(cache, clip, files[i], resample, detect);
      if step.result.Ok? {
        RunKeepsEntries(step.cache, clip, files, i + 1, resample, detect);
      }
    }
  }

  /** Result `k` is the reference decision for file `i + k`. */
  predicate AgreesAt(results: seq<Result<Detection>>, clip: Clip, files: seq<AudioFile>, i: nat, k: nat,
                     resample: Resampler, detect: Detector)
  {
    k < |results| && i + k < |files| && results[k] == Reference(clip, files[i + k], resample, detect)
  }

  /** Every result is the reference decision for the file it belongs to,
      counting from file `i`. */
  ghost predicate AgreesFrom(results: seq<Result<Detection>>, clip: Clip, files: seq<AudioFile>, i: nat,
                             resample: Resampler, detect: Detector)
  {
    forall k: nat :: k < |results| ==> AgreesAt(results, clip, files, i, k, resample, detect)
  }

  lemma AgreesCons(result: Result<Detection>, later: seq<Result<Detection>>, clip: Clip,
                   files: seq<AudioFile>, i: nat, resample: Resampler, detect: Detector)
    requires i < |files| && result == Reference(clip, files[i], resample, detect)
    requires AgreesFrom(later, clip, files, i + 1, resample, detect)
    ensures AgreesFrom([result] + later, clip, files, i, resample, detect)
  {
    var all := [result] + later;
    forall k: nat | k < |all|
      ensures AgreesAt(all, clip, files, i, k, resample, detect)
    {
      if k > 0 {
        assert AgreesAt(later, clip, files, i + 1, k - 1, resample, detect);
        assert all[k] == later[k - 1];
        assert i + k == (i + 1) + (k - 1);
      }
    }
  }

  /** Caching never changes a decision: starting from a valid cache, every
      result of a run is the cache-free reference decision for its file,
      and the cache stays valid. */
  lemma {:induction false} RunAgreesWithReference(cache: Cache, clip: Clip, files: seq<AudioFile>, i: nat,
                                                  resample: Resampler, detect: Detector)
    requires i <= |files|
    requires Valid(cache, clip, resample)
    ensures var r := RunFrom(cache, clip, files, i, resample, detect);
            && AgreesFrom(r.results, clip, files, i, resample, detect)
            && Valid(r.cache, clip, resample)
    decreases |files| - i
  {
    if i < |files| {
      RunStep(cache, clip, files, i, resample, detect);
      ProcessFileAgreesWithReference(cache, clip, files[i], resample, detect);
      var step := ProcessFile(cache, clip, files[i], resample, detect);
      if step.result.Err? {
        AgreesCons(step.result, [], clip, files, i, resample, detect);
      } else {
        RunAgreesWithReference(step.cache, clip, files, i + 1, resample, detect);
        var rest := RunFrom(step.cache, clip, files, i + 1, resample, detect);
        AgreesCons(step.result, rest.results, clip, files, i, resample, detect);
      }
    }
  }

  /** The rates the clip is resampled to during a run are exactly the
      processed rates that were not already cached. */
  lemma {:induction false} RunResampledRates(cache: Cache, clip: Clip, files: seq<AudioFile>, i: nat,
                                             resample: Resampler, detect: Detector)
    requires i <= |files|
    ensures var r := RunFrom(cache, clip, files, i, resample, detect);
            ResampledExactly(r.resampled, Rates(files, i, r.end), cache.Keys)
    decreases |files| - i
  {
    if i < |files| {
      RunStep(cache, clip, files, i, resample, detect);
      var step := ProcessFile(cache, clip, files[i], resample, detect);
      var here := if step.resampled then [files[i].rate] else [];
      if step.result.Err? {
        RatesUnfold(files, i, i + 1);
        assert here + [] == here;
        ResampledStep(files[i].rate, cache.Keys, step.cache.Keys, here, [], {});
      } else {
        RunResampledRates(step.cache, clip, files, i + 1, resample, detect);
        var rest := RunFrom(step.cache, clip, files, i + 1, resample, detect);
        RatesUnfold(files, i, rest.end);
        ResampledStep(files[i].rate, cache.Keys, step.cache.Keys, here, rest.resampled,
                      Rates(files, i + 1, rest.end));
      }
    }
  }

  /** One step of the run on the resampled rates: the first file's rate is
      resampled exactly when it was not cached, and the rest of the run
      resamples the remaining rates that were not cached after that step. */
  lemma ResampledStep(rate: SampleRate, before: set<SampleRate>, after: set<SampleRate>,
                      here: seq<SampleRate>, later: seq<SampleRate>, laterRates: set<SampleRate>)
    requires after == before + {rate}
    requires here == if rate in before then [] else [rate]
    requires ResampledExactly(later, laterRates, after)
    ensures ResampledExactly(here + later, {rate} + laterRates, before)
  {
  }

  lemma DistinctCons(rate: SampleRate, rates: seq<SampleRate>, add: bool)
    requires Distinct(rates)
    requires add ==> rate !in rates
    ensures Distinct((if add then [rate] else []) + rates)
  {
    var all := (if add then [rate] else []) + rates;
    var d := if add then 1 else 0;
    forall i, j | 0 <= i < j < |all|
      ensures all[i] != all[j]
    {
      if add && i == 0 {
        assert all[j] == rates[j - 1];
      } else {
        assert all[i] == rates[i - d];
        assert all[j] == rates[j - d];
      }
    }
  }

  /** The clip is resampled at most once per rate: the rates it is resampled
      to during a run are pairwise distinct. */
  lemma {:induction false} RunResamplesOncePerRate(cache: Cache, clip: Clip, files: seq<AudioFile>, i: nat,
                                                   resample: Resampler, detect: Detector)
    requires i <= |files|
    ensures Distinct(RunFrom(cache, clip, files, i, resample, detect).resampled)
    decreases |files| - i
  {
    if i < |files| {
      RunStep(cache, clip, files, i, resample, detect);
      var step := ProcessFile(cache, clip, files[i], resample, detect);
      if step.result.Ok? {
        RunResamplesOncePerRate(step.cache, clip, files, i + 1, resample, detect);
        RunResampledRates(step.cache, clip, files, i + 1, resample, detect);
        var rest := RunFrom(step.cache, clip, files, i + 1, resample, detect);
        DistinctCons(files[i].rate, rest.resampled, step.resampled);
      }
    }
  }

  /** The whole run: seed the cache with the clip, then process the files. */
  function ProcessAll(clip: Clip, files: seq<AudioFile>, est: Estimators, factor: int): (r: Run)
    ensures r.end <= |files| && |r.results| == r.end
  {
    RunFrom(Init(clip), clip, files, 0, est.resample, DetectorOf(est, factor))
  }

  /** A run from start-up decides every processed file as the reference
      does, ends with one cache entry per rate seen (plus the clip's own),
      never resamples the clip's own rate, and resamples every other rate
      seen exactly once. */
  lemma ProcessAllSpec(clip: Clip, files: seq<AudioFile>, est: Estimators, factor: int)
    ensures var r := ProcessAll(clip, files, est, factor);
            && AgreesFrom(r.results, clip, files, 0, est.resample, DetectorOf(est, factor))
            && Valid(r.cache, clip, est.resample)
            && CachedExactly(r.cache, {clip.rate}, Rates(files, 0, r.end))
            && Distinct(r.resampled)
            && ResampledExactly(r.resampled, Rates(files, 0, r.end), {clip.rate})
  {
    var detect := DetectorOf(est, factor);
    InitValid(clip, est.resample);
    RunAgreesWithReference(Init(clip), clip, files, 0, est.resample, detect);
    RunCacheKeys(Init(clip), clip, files, 0, est.resample, detect);
    RunResampledRates(Init(clip), clip, files, 0, est.resample, detect);
    RunResamplesOncePerRate(Init(clip), clip, files, 0, est.resample, detect);
  }
}
