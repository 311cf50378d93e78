# Jingle detector: reversed-clip cache and trim decision

`detect-audio-jingle.py` looks for a short reference clip (a jingle) in a
list of audio files. For each file it decides whether the jingle occurs
late enough to cut away everything before it and, if so, from which second
to trim. This project models the two pure parts of that script and proves
properties about them:

- **The reversed-clip cache** (module `ClipCache`, `clip_cache.dfy`). This
  is a map from sample rate to the clip, time-reversed and resampled to
  that rate. It is seeded with the clip's native rate. On the first file at
  a new rate it gains one entry, and an entry is never replaced.
- **The per-file decision** (module `Detection`, `detection.dfy`). It takes
  the correlation magnitude trace `z`. It finds the first sample at or
  above the percentile threshold and moves back half a clip length,
  floored at 0, to get the onset. It converts the onset to seconds. The
  file is kept only if the trace maximum exceeds `std * factor + mean` and
  the onset lies more than ten seconds in. A file that is not kept gets
  seek 0, which the trimmer treats as "copy unchanged".
- **The loop over files** (module `Pipeline`, `pipeline.dfy`). It combines
  the two: each file looks up the reversed clip for its rate, correlates,
  and decides. The run stops at the first file whose decision fails.
- **Sequences and statistics** (module `Signal`, `signal.dfy`). This holds
  reversal, magnitudes, sum, mean, maximum, minimum and variance over
  `seq<real>`.

The external numeric routines are parameters of the model, not
definitions. They are:

- band-limited resampling (`Resampler`);
- "same"-mode FFT convolution;
- the configured percentile;
- the standard deviation.

So every statement is proved for every choice of them. Where a statement
needs a property of one of them, it says so: "same" mode keeps the input
length unless the clip is empty, in which case the result is empty
(`SameMode`), and the percentile is at most the trace's maximum.

Memoisation is stated against a cache-free reference. `ReversedFor`
computes the reversed clip for a rate afresh, and `Reference` decides a
file with it. The proved theorem is that a run with the cache yields
exactly the reference decisions. It also resamples the clip once for
every new rate it meets and never for the clip's own rate.

Sample and trace values are modelled as mathematical reals. A sample rate
is a positive integer, which is what the audio loader reports. Integer
division `len(to_find) // 2` on a non-negative length is Dafny's `/` on
`nat`.

## Model

| member | source | states |
|---|---|---|
| Signal.Reverse | detect-audio-jingle.py:53 | `x[::-1]`: the result has the input's length, and position `i` holds the input's element at `len - 1 - i` |
| Signal.ReverseInvolution | detect-audio-jingle.py:53 | reversing twice gives back the clip, so the cached reversed clip determines the clip |
| Signal.Magnitudes | detect-audio-jingle.py:81 | `np.abs(z)` keeps the length, and each element becomes non-negative and equals the original or its negation |
| Signal.MagnitudesIdempotent | detect-audio-jingle.py:81 | the magnitude trace is non-negative; magnitudes leave a non-negative trace unchanged, so applying them twice equals applying them once |
| Signal.Max | detect-audio-jingle.py:91 | `np.max(z)` bounds every element from above and is attained by some element |
| Signal.Min | detect-audio-jingle.py:83 | the least element bounds every element from below and is attained, which is the lower bound of any percentile of `z` |
| Signal.Mean | detect-audio-jingle.py:91-93 | `np.mean(z)` is never above `np.max(z)`, so `zmax >= zmean` holds in every decision |
| Signal.MeanWithinRange | detect-audio-jingle.py:91-93 | `np.mean(z)` lies between the smallest and the largest element of every non-empty trace |
| Signal.ConstantStatistics | detect-audio-jingle.py:91-93 | for a constant trace, `zmax` and `zmean` both equal the constant and the population variance (`np.std` squared) is 0 |
| ClipCache.Init | detect-audio-jingle.py:53 | the seeded cache has exactly one key, the clip's native rate; its entry is as long as the clip and reverses back to the clip |
| ClipCache.InitValid | detect-audio-jingle.py:52-53 | the seeded cache agrees with the cache-free reference for every key it holds |
| ClipCache.Get | detect-audio-jingle.py:70-73 | after a lookup the rate is cached and the returned clip is its entry; the resampler runs exactly on a miss. A hit leaves the cache unchanged. A miss adds exactly that one key, holding the reversed resampled clip. No existing entry changes |
| ClipCache.GetAgreesWithReference | detect-audio-jingle.py:70-73 | on a valid cache the lookup returns what computing afresh would give and keeps the cache valid; the native rate is never resampled |
| ClipCache.GetIdempotent | detect-audio-jingle.py:70-73 | looking the same rate up again is a hit: no resampling, the same cache and the same clip |
| Detection.FirstAtLeast | detect-audio-jingle.py:84 | `np.argmax(z >= t)`: every element before the position is below `t`; a qualifying element exists iff the position holds one; with none the position is 0; it is inside a non-empty trace |
| Detection.FindEvent | detect-audio-jingle.py:84 | a left-to-right scan with early exit returns the same position as `FirstAtLeast`, with everything before it below the threshold |
| Detection.PercentileIsCrossed | detect-audio-jingle.py:83-84 | a threshold at most the trace's maximum, as any percentile is, is reached inside the trace; a threshold at or below the minimum is reached at index 0 |
| Detection.OnsetIgnoresLaterSamples | detect-audio-jingle.py:84-87 | once a crossing exists, appending samples to the trace changes neither the crossing nor the onset |
| Detection.EventStart | detect-audio-jingle.py:85-87 | the onset is never negative and never after the crossing; it is the crossing minus half the clip length, or 0 when that is not positive |
| Detection.ShortInputNotTrimmed | detect-audio-jingle.py:85-87 | when the trace has at most half a clip length plus one samples, the onset is 0, the file is not kept and its seek is 0 |
| Detection.CrossingAtEndStartsLate | detect-audio-jingle.py:84-87 | the converse of `ShortInputNotTrimmed`: a trace longer than half a clip plus one, crossed only at its last sample, has onset `len(z) - 1 - len(to_find) // 2`, which is positive, whatever the clip length |
| Detection.LongerClipCanStillStartLate | detect-audio-jingle.py:84-87 | a clip longer than the input does not by itself force the onset to 0: a ten-sample trace crossed at its last sample, with an eleven-sample clip, is decided with onset 4 |
| Detection.Seconds | detect-audio-jingle.py:89 | `z_event_start / f_sr` is non-negative and, multiplied back by the rate, gives the sample number |
| Detection.Decide | detect-audio-jingle.py:81-99 | an empty trace is an error, as `np.percentile` raises on it. Otherwise the logged onset, thresholds, max, std and mean are those of the trace. `keep` holds iff `zmax > zstd * factor + zmean` and the onset is more than 10 s in. A kept file's seek is the onset in seconds; any other seek is 0 |
| Detection.KeptMeansLateOnset | detect-audio-jingle.py:89-99 | a kept file's seek exceeds 10 s and its onset exceeds ten seconds' worth of samples; the seek is 0 exactly when the file is not kept, which makes `save_trimmed` copy it unchanged |
| Detection.ConstantTraceRejected | detect-audio-jingle.py:91-96 | with a non-negative factor and std, a constant trace (silence, say) has a false-positive threshold at or above its maximum and is never kept |
| Detection.KeepMonotoneInFactor | detect-audio-jingle.py:94-96 | raising `--fp-threshold-factor` can only turn a keep into a reject |
| Pipeline.Trace | detect-audio-jingle.py:80-81 | the magnitude trace is non-negative; with "same"-mode convolution it is as long as the input file, or empty when the reversed clip is empty |
| Pipeline.DetectWith | detect-audio-jingle.py:80-99 | with "same"-mode convolution a file's decision fails iff the file or the reversed clip has no samples, and its onset lies inside the file; the seek is never negative |
| Pipeline.ProcessFile | detect-audio-jingle.py:69-99 | one loop iteration adds the file's rate to the cache and changes no existing entry. It resamples iff the rate was not cached, and decides with the cached clip for that rate |
| Pipeline.ProcessFileAgreesWithReference | detect-audio-jingle.py:70-99 | on a valid cache one iteration decides exactly as with a freshly computed clip and keeps the cache valid |
| Pipeline.RunFrom | detect-audio-jingle.py:60-99 | the loop, started at file `i`, processes a contiguous block of files from `i` on and yields exactly one result per processed file |
| Pipeline.RunStopsAtFirstError | detect-audio-jingle.py:60-99 | the run decides every file up to and including the first failure and no further: all results but the last succeed, and the run ends early only on a failure |
| Pipeline.RunCacheKeys | detect-audio-jingle.py:70-72 | after a run the cache has an entry exactly for the starting rates and the rates of the processed files |
| Pipeline.RunKeepsEntries | detect-audio-jingle.py:70-72 | a run never replaces a cache entry |
| Pipeline.RunAgreesWithReference | detect-audio-jingle.py:60-99 | starting from a valid cache, every result of the run is the cache-free reference decision for its file, and the cache stays valid |
| Pipeline.RunResampledRates | detect-audio-jingle.py:70-72 | the rates the clip is resampled to are exactly the processed rates that were not cached before the run |
| Pipeline.RunResamplesOncePerRate | detect-audio-jingle.py:70-72 | the clip is never resampled twice to the same rate |
| Pipeline.ProcessAll | detect-audio-jingle.py:51-99 | the run from start-up processes a prefix of the file list and yields one result per processed file |
| Pipeline.ProcessAllSpec | detect-audio-jingle.py:51-99 | the whole run from start-up gives the reference decisions and ends with a valid cache keyed by the clip's rate plus the rates seen. It resamples once for each rate seen other than the clip's own, and never for the clip's own |

## Left out

- Audio loading and decoding (`loadAudio`, the 4-minute duration cap, mono down-mix): file I/O through a foreign library. A file is modelled as its decoded samples and rate.
- Resampling, FFT convolution, `np.percentile` interpolation and `np.std`: these are floating-point numerics in foreign libraries, so they are parameters of the model.
- Pipeline.Trace: its length is stated only under `SameMode`, because the convolution is a parameter; the script relies on scipy's "same" mode for it.
- Detection.Decide: it takes the percentile and the standard deviation as inputs. `PercentileIsCrossed` assumes the percentile is at most the trace's maximum instead of computing it.
- Detection.ConstantTraceRejected: it assumes `zstd >= 0` and does not derive `zstd = 0` from the trace. `Signal.ConstantStatistics` proves that the variance is 0, but the square root is not modelled.
- Floating-point rounding: traces and thresholds are reals, so a decision that hinges on rounding in `zstd * factor + zmean` or in `z_event_start / f_sr` is not modelled.
- Argument parsing and the "needs --output-dir or --dry-run" error: configuration. The factor and the percentile enter as plain parameters.
- Directory globbing, natural sorting and skipping a file whose output already exists: filesystem I/O. The run takes the list of files to process.
- The failure that ends the run is the exception raised for an empty trace, which an empty file or an empty clip produces. It is a result `Err(EmptyTrace)`, and the run stops after it, as the uncaught exception stops the script. Other exceptions from the foreign libraries are not modelled.
- The log line and its two-decimal formatting, plotting, and `save_trimmed` (file copy, ffmpeg seek and copy, directory creation): output and external processes. `KeptMeansLateOnset` states the seek they receive.
- Nothing is claimed about a clip longer than the input beyond what the code does: the onset is 0 exactly when the crossing is at most `len(to_find) // 2` (`EventStart`). A short trace therefore gets onset 0 (`ShortInputNotTrimmed`), but a clip longer than the input does not by itself force it (`CrossingAtEndStartsLate`, `LongerClipCanStillStartLate`).
- Detection.KeptMeansLateOnset: it proves that a kept file's seek is the onset in seconds and that the seek is 0 exactly when the file is not kept. It does not claim "seek equals `z_event_start / f_sr` iff kept", which fails for a file that is not kept and has onset 0, since 0 / rate is also 0.
