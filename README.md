# Wake-word detection core, modelled in Dafny

This project models the wake-word detector of the sitran01.github.io site and
its offline evaluation harness. It proves properties of both.

- **Browser worker** (`js/worker.js`). A Web Worker keeps a 16000-sample
  rolling audio buffer. For every `PROCESS` message carrying a microphone
  chunk, it either burns one cooldown tick or runs one inference cycle. An
  inference cycle pushes the class probabilities into a 3-entry history and
  averages class 1 over it. An idle detector arms (`PRE_TRIGGER`) when that
  average reaches 0.75. An armed detector confirms (`DETECTED`) on the next
  completed cycle, then clears the buffer and the history and starts a
  10-cycle cooldown. The feature extractor (`DSP`) is modelled in its index
  structure:
  - framing at hop 160 with 400-sample frames;
  - the Hann multiplication on a typed array;
  - the filterbank and DCT projections;
  - the `channel * 101 + frame` flat layout;
  - the triangular mel filter fill.
- **Streaming harness** (`test_MULTI-ALIGNED_INT8_stream_audio.py`). It reads
  a WAV file in 100 ms chunks and resamples each chunk to 16 kHz. It keeps the
  last 10 chunks in a deque and assembles them into a 16000-sample clip for the
  model. A detection fires when the mean of the last three wake scores reaches
  0.50 outside a 10-cycle cooldown. `calculate_metrics` then matches the
  detections against the ground-truth "seven" starts and computes TP, FP, FN
  and TN, plus accuracy, precision, recall and F1.

Modules:
- `Sequences`: the bounded window `LastN`, used for the rolling buffer, the
  histories and the deque. Also sums and means.
- `Features`: the DSP index logic.
- `WakeWorker`: the worker's message handler. It is specified as a pure
  function `Step` on a `State` value. The class `Worker` holds the same state
  as mutable fields with an `array` buffer, and its methods are proved against
  `Step`.
- `StreamHarness`: the streaming loop. It is specified by `StreamStep` and
  `Stream`, and `RunFileTest` is proved against them.
- `Metrics`: `calculate_metrics`.

The following are parameters of the model, not computed by it:
- The neural model. In the harness it becomes a function from the clip to
  the class probabilities, or to nothing when preprocessing, the session or
  softmax raises. In the worker it becomes the outcome of the cycle.
- The floating-point DSP values, which become input sequences.

Two points of the trigger's timing:
- The cycle whose smoothed value reaches 0.75 arms. The very next completed
  cycle posts DETECTED whatever its probabilities (`ArmsExactlyAtThreshold`,
  `ConfirmsNextCycle`, `ArmThenConfirm`).
- Arming happens only outside cooldown, so no cooldown tick can come in
  between. An inference that throws in between leaves the detector armed
  (`ThrowKeepsLogic`).

## Model

| member | source | states |
|---|---|---|
| Sequences.LastN | js/worker.js:222-227 | a window of capacity n keeps min(\|s\|, n) elements |
| Sequences.LastNAppend | js/worker.js:222-227 | passing s then t through a window of capacity n leaves what passing s + t leaves, so how the audio is split into chunks does not matter |
| Sequences.MeanBounds | test_MULTI-ALIGNED_INT8_stream_audio.py:196 | the mean of values in [lo, hi] lies in [lo, hi] |
| Features.Slice | js/worker.js:111 | defines typed-array `slice(begin, end)`, with `end` clamped to the length and an empty result past it |
| Features.Frame | js/worker.js:109-111 | defines frame i as the slice of the window from 160·i to 160·i + 400 |
| Features.FrameShape | js/worker.js:109-111 | frame i starts at sample 160·i; it has 400 samples, or fewer when the window ends first |
| Features.TailFramesShort | js/worker.js:99-111 | as written, frames 0–97 are full and frames 98, 99, 100 have 320, 160 and 0 samples |
| Features.Padded | js/worker.js:99-100 | the padded copy has 200 extra samples on each side: position x holds window sample x − 200 inside the window's span, and 0 elsewhere |
| Features.PaddedFrame | js/worker.js:99-111 | defines frame i taken from the padded copy, from 160·i to 160·i + 400 |
| Features.PaddedFramesFull | js/worker.js:99-111 | taken from the padded copy, all 101 frames have 400 samples, each reading the window or zeros past its ends |
| Features.ApplyWindow | js/worker.js:113 | positions below 400 of the frame are multiplied by the Hann weight; positions past a short frame's end are ignored |
| Features.Dot | js/worker.js:117-121 | defines the left-to-right weighted sum of the first n bins |
| Features.DotProduct | js/worker.js:117-121 | the accumulating loop equals the left-to-right dot product `Dot` |
| Features.BandEnergyNonNegative | js/worker.js:93-135 | with a power spectrum of sums of squares and non-negative filter weights, every band energy is ≥ 0, so `log10(v + 1e-10)` is defined |
| Features.DotZero | js/worker.js:117-121 | a frame with no spectral energy has zero energy in every band |
| Features.ProjectBands | js/worker.js:116-128 | band m of a frame is the dot product of its power spectrum with filter m, over the bins the spectrum has |
| Features.FlatIndex | js/worker.js:144 | defines the flat position `k * num_frames + t` of channel k, frame t (also line 151) |
| Features.FlatIndexBijective | js/worker.js:137-153 | `k * 101 + t` maps (channel, frame) one-to-one onto the flat positions, and back by `/ 101` and `% 101` |
| Features.ProjectCepstra | js/worker.js:137-146 | coefficient k of frame t, stored at `k * 101 + t`, is DCT row k applied to that frame's 40 log-mel energies |
| Features.WriteCepstrum | js/worker.js:139-145 | one frame's 40 coefficients are written into its column and every other column is untouched |
| Features.FlattenMelspec | js/worker.js:148-153 | band k of frame t is stored at `k * 101 + t`, and every position holds the band and frame it encodes |
| Features.TriangleWeight | js/worker.js:53-58 | defines the weight the fill loops leave in bin j: the rising edge on [start, center), the falling edge on [center, end), 0 elsewhere |
| Features.TriangleShape | js/worker.js:53-58 | triangle weights lie in [0, 1], are 0 outside [start, end), and are 1 at the center when the falling edge is non-empty |
| Features.AdjacentTrianglesSumToOne | js/worker.js:47-58 | on the rising edge of filter i + 1, filters i and i + 1 add up to 1 |
| Features.TriangleFilter | js/worker.js:48-58 | the two fill loops, skipping bins outside the 201-bin row, leave exactly `TriangleWeight` in every bin |
| Features.CreateMelFilterbank | js/worker.js:45-61 | filter i has 201 bins and takes its edges from bin points i, i + 1, i + 2 |
| WakeWorker.Initial | js/worker.js:179-188 | the script's initial state, with no session, a silent buffer, empty history, idle and no cooldown, is valid |
| WakeWorker.CenterSum | js/worker.js:257-258 | defines `avgProbCenter += p[1]` over the history, NaN once an entry has no class 1 |
| WakeWorker.CenterMean | js/worker.js:257-259 | defines that sum divided by the history's length, NaN for an empty history |
| WakeWorker.CenterSumIsSum | js/worker.js:257-258 | when every entry has a class 1, the accumulated value is the sum of the class-1 probabilities |
| WakeWorker.CenterSumShort | js/worker.js:258 | an entry without class 1 makes the sum NaN |
| WakeWorker.CenterMeanIsMean | js/worker.js:257-259 | the smoothed value is finite exactly when the history is non-empty and every entry has class 1; it is then the arithmetic mean, and lies in [0, 1] for probabilities |
| WakeWorker.AverageCenter | js/worker.js:257-259 | the averaging loop computes `CenterMean` |
| WakeWorker.Step | js/worker.js:217-289 | defines one PROCESS message: nothing without a session, otherwise the buffer update followed by `Cycle` |
| WakeWorker.Cycle | js/worker.js:229-284 | defines a cooldown tick, or a thrown inference leaving the state, or the history push followed by `Decide` |
| WakeWorker.Decide | js/worker.js:266-283 | defines the trigger: arm at a smoothed value ≥ 0.75, or count the cycle and report and reset once the count reaches 1 |
| WakeWorker.StepValid | js/worker.js:217-289 | a message keeps the buffer at 16000 samples, the history at ≤ 3 entries and the cooldown in [0, 10] |
| WakeWorker.NoSessionNoChange | js/worker.js:218 | before a session exists a message changes nothing, not even the buffer |
| WakeWorker.BufferAfterStep | js/worker.js:222-227 | the buffer becomes the last 16000 samples of old buffer + chunk, or silence after a detection |
| WakeWorker.CooldownTick | js/worker.js:229-232 | during cooldown a message absorbs the chunk, decrements the counter and changes nothing else |
| WakeWorker.ThrowKeepsLogic | js/worker.js:234-288 | an inference cycle that throws leaves the history, trigger and counters as they were |
| WakeWorker.HistoryAfterCycle | js/worker.js:254-255 | after a completed cycle without detection, the history is the newest ≤ 3 vectors in order, ending with this cycle's |
| WakeWorker.AtLeast | js/worker.js:267 | defines `avgProbCenter >= confidenceThreshold` on a number that may be NaN: false for NaN |
| WakeWorker.ArmsExactlyAtThreshold | js/worker.js:266-271 | an idle detector arms and posts PRE_TRIGGER if and only if the smoothed value is at least 0.75 (NaN never arms) |
| WakeWorker.ConfirmsNextCycle | js/worker.js:272-283 | an armed detector posts DETECTED on the next completed cycle with the smoothed value, then resets buffer, history, trigger and cooldown |
| WakeWorker.InitialReach | js/worker.js:179-188 | the initial state is reachable: valid, counter not negative, and not armed |
| WakeWorker.StepReach | js/worker.js:217-289 | every message keeps the state reachable: valid, counter ≥ 0, and an armed detector's counter at 0 |
| WakeWorker.ArmThenConfirm | js/worker.js:266-283 | from any reachable state, a PRE_TRIGGER is followed by DETECTED, carrying the new smoothed value, on the next completed cycle |
| WakeWorker.DetectionResets | js/worker.js:274-283 | DETECTED is posted only by an armed detector out of cooldown on a completed cycle, and always leaves the reset state |
| WakeWorker.Events | js/worker.js:198-290 | a sequence of messages produces one event per message |
| WakeWorker.StepDistance | js/worker.js:229-283 | each message brings the next possible DETECTED at most one message closer; a DETECTED pushes it 12 messages away |
| WakeWorker.NoDetectionWithinDistance | js/worker.js:229-283 | no DETECTED occurs before `Distance` messages have passed |
| WakeWorker.DetectionsApart | js/worker.js:229-283 | two DETECTED events are at least 12 PROCESS messages apart |
| WakeWorker.Worker.constructor | js/worker.js:179-188 | the worker starts in `Initial()` |
| WakeWorker.Worker.Init | js/worker.js:201-215 | INIT posts LOADED and sets the session when the model loads, or posts ERROR and keeps the state |
| WakeWorker.Worker.Absorb | js/worker.js:222-227 | the in-place buffer update leaves the last 16000 samples of old buffer + chunk |
| WakeWorker.Worker.SetTail | js/worker.js:223 | a chunk of ≥ 16000 samples replaces the buffer with its last 16000 |
| WakeWorker.Worker.ShiftIn | js/worker.js:225-226 | a shorter chunk shifts the buffer left by its length and is written at the end |
| WakeWorker.Worker.Process | js/worker.js:217-289 | one PROCESS message updates the fields and posts the event exactly as `Step` says, keeping the state valid |
| WakeWorker.Worker.RunCycle | js/worker.js:229-284 | the cooldown tick or the history push followed by the trigger, as `Cycle` says |
| WakeWorker.Worker.Trigger | js/worker.js:257-283 | the arm/confirm logic and reset on the updated history, as `Decide` says |
| StreamHarness.EveryThird | test_MULTI-ALIGNED_INT8_stream_audio.py:143 | defines `samples[::3]` |
| StreamHarness.EveryThirdPicks | test_MULTI-ALIGNED_INT8_stream_audio.py:143 | `samples[::3]` keeps ⌈n/3⌉ samples, sample k being input sample 3k |
| StreamHarness.LinspaceIndex | test_MULTI-ALIGNED_INT8_stream_audio.py:145 | every `linspace` index is a valid sample index |
| StreamHarness.LinspaceInOrder | test_MULTI-ALIGNED_INT8_stream_audio.py:145 | the `linspace` indices are non-decreasing |
| StreamHarness.LinspaceEnds | test_MULTI-ALIGNED_INT8_stream_audio.py:145 | the `linspace` indices start at the first sample and, with two or more points, end at the last |
| StreamHarness.Pick441 | test_MULTI-ALIGNED_INT8_stream_audio.py:144-146 | the 44.1 kHz branch keeps ⌊n·16000/44100⌋ samples, taken at the `linspace` indices |
| StreamHarness.Resample | test_MULTI-ALIGNED_INT8_stream_audio.py:141-147 | 48 kHz is decimated by 3, 44.1 kHz picked at the `linspace` indices, and any other rate passes through unchanged |
| StreamHarness.FullReadIsTenthOfClip | test_MULTI-ALIGNED_INT8_stream_audio.py:123-147 | a full read of `int(rate * 0.1)` frames at 16, 44.1 or 48 kHz resamples to 1600 samples, a tenth of the clip |
| StreamHarness.ToUnit | test_MULTI-ALIGNED_INT8_stream_audio.py:150 | int16 samples divided by 32768 land in [-1, 1) and scale back exactly |
| StreamHarness.Concat | test_MULTI-ALIGNED_INT8_stream_audio.py:157 | defines `torch.cat(list(buffer_16k))`: the deque's chunks concatenated in order |
| StreamHarness.ConcatLength | test_MULTI-ALIGNED_INT8_stream_audio.py:157 | concatenating chunks of equal width w gives count·w samples |
| StreamHarness.FitClip | test_MULTI-ALIGNED_INT8_stream_audio.py:157-164 | the model input has 16000 samples: the last 16000 of a longer clip, or the clip followed by zeros |
| StreamHarness.FullDequeIsClip | test_MULTI-ALIGNED_INT8_stream_audio.py:151-164 | ten 1600-sample chunks are exactly the model input, with no cut and no padding |
| StreamHarness.WakeScore | test_MULTI-ALIGNED_INT8_stream_audio.py:190-193 | `p_wake` fails, with an IndexError, exactly when there are fewer than two classes |
| StreamHarness.WakeScoreIsNotBackground | test_MULTI-ALIGNED_INT8_stream_audio.py:185-193 | on a probability distribution both branches give 1 − p(background), a probability |
| StreamHarness.StreamStep | test_MULTI-ALIGNED_INT8_stream_audio.py:133-214 | defines one chunk's arrival: append to the deque; past warm-up, score the clip, push the score, then tick the cooldown or test the trigger; None when the model or `p_wake` raises |
| StreamHarness.Stream | test_MULTI-ALIGNED_INT8_stream_audio.py:132-214 | defines the state and detections after each prefix of the chunks, or None once an arrival raised |
| StreamHarness.RaiseEndsRun | test_MULTI-ALIGNED_INT8_stream_audio.py:171-193 | once a cycle raises, the run ends with no result whatever follows |
| StreamHarness.WarmUp | test_MULTI-ALIGNED_INT8_stream_audio.py:151-154 | before ten chunks have arrived the model is not consulted and nothing fires |
| StreamHarness.CycleRules | test_MULTI-ALIGNED_INT8_stream_audio.py:171-214 | with a full deque, the run ends exactly when the model raises or gives fewer than two classes; otherwise the score is appended even during cooldown; a detection fires if and only if the cooldown is over and the 3-score mean is ≥ 0.50; firing clears the history and sets cooldown 10 |
| StreamHarness.StepKeepsInvariant | test_MULTI-ALIGNED_INT8_stream_audio.py:132-214 | one arrival keeps the stream invariant: deque = last 10 chunks, history ≤ 3, cooldown in [0, 10], detections increasing, none before the 10th chunk, ≥ 11 apart |
| StreamHarness.StreamKeepsInvariant | test_MULTI-ALIGNED_INT8_stream_audio.py:132-214 | the stream invariant holds after every prefix of the input |
| StreamHarness.DetectionsApart | test_MULTI-ALIGNED_INT8_stream_audio.py:201-214 | detections i < j are at least 11·(j − i) chunks apart |
| StreamHarness.Arrive | test_MULTI-ALIGNED_INT8_stream_audio.py:133-214 | one loop iteration computes `StreamStep` |
| StreamHarness.RunFileTest | test_MULTI-ALIGNED_INT8_stream_audio.py:123-217 | the streaming loop returns the detections of `Stream`, or none when a cycle raised |
| Metrics.SevenStarts | test_MULTI-ALIGNED_INT8_stream_audio.py:43 | defines the start times of the "seven" items, in order |
| Metrics.CountOthers | test_MULTI-ALIGNED_INT8_stream_audio.py:44-45 | defines the number of "other" items |
| Metrics.LabelCounts | test_MULTI-ALIGNED_INT8_stream_audio.py:43-45 | the counts of sevens and others together do not exceed the number of items |
| Metrics.Scan | test_MULTI-ALIGNED_INT8_stream_audio.py:50-54 | defines `(best_gt_idx, best_diff)` after the first n starts, replacing the best only on a strictly smaller in-tolerance distance |
| Metrics.NearestSeven | test_MULTI-ALIGNED_INT8_stream_audio.py:50-54 | defines a detection's chosen start as the scan over all starts |
| Metrics.ScanFindsNearest | test_MULTI-ALIGNED_INT8_stream_audio.py:50-54 | the scan stays at -1 exactly while no start is within tolerance, and otherwise holds the nearest start (the first on ties) and its distance |
| Metrics.NearestSevenIsNearest | test_MULTI-ALIGNED_INT8_stream_audio.py:50-54 | a detection's chosen start is the nearest within tolerance, the first on ties, or -1 exactly when none is within tolerance |
| Metrics.Nearest | test_MULTI-ALIGNED_INT8_stream_audio.py:50-54 | the inner loop returns that start |
| Metrics.Credited | test_MULTI-ALIGNED_INT8_stream_audio.py:47-57 | defines `used_gt_indices` after the detections: each adds its chosen start unless that start is -1 or already used |
| Metrics.CreditedBounds | test_MULTI-ALIGNED_INT8_stream_audio.py:47-57 | every credited start is a real start, the nearest of some detection, and there are no more credits than detections or starts |
| Metrics.UsedNearestEarnsNothing | test_MULTI-ALIGNED_INT8_stream_audio.py:55-57 | for all inputs, a detection whose chosen start is already credited leaves the credited set unchanged |
| Metrics.UsedNearestIsFalsePositive | test_MULTI-ALIGNED_INT8_stream_audio.py:47-57 | witness: with starts at 1000 and 1300 ms, detections at 1100 and 1120 ms credit only the first, though 1300 is unused and within tolerance |
| Metrics.Ratio | test_MULTI-ALIGNED_INT8_stream_audio.py:63-65 | defines the guarded rate `num / den if den > 0 else 0` |
| Metrics.F1 | test_MULTI-ALIGNED_INT8_stream_audio.py:66 | defines `2 * (prec * rec) / (prec + rec) if prec + rec > 0 else 0` |
| Metrics.F1InUnit | test_MULTI-ALIGNED_INT8_stream_audio.py:66 | F1 of a precision and recall in [0, 1] lies in [0, 1] |
| Metrics.Scores | test_MULTI-ALIGNED_INT8_stream_audio.py:63-68 | every rate is 0 when its denominator is 0, and accuracy, precision, recall and F1 all lie in [0, 1] |
| Metrics.CalculateMetrics | test_MULTI-ALIGNED_INT8_stream_audio.py:36-68 | TP counts the credited starts, TP + FP = detections and TP + FN = sevens with none negative, TN = max(0, others − FP), and the rates are `Scores` of those counts |

## Left out

- The floating-point DSP values are inputs, not computed:
  - the Hann window values, the mel scale conversions and the bin points derived from them (`createHannWindow`, `hzToMel`, `melToHz`, js/worker.js:19-42);
  - the DCT basis (`createDCTMatrix`, js/worker.js:64-77);
  - the direct DFT (`dftMagnitude`, js/worker.js:79-96);
  - the `10 * log10(v + 1e-10)` compression (js/worker.js:134-135);
  - `standardize` (js/worker.js:158-174);
  - `softmax` (js/worker.js:191-196).

  Floating point (transcendental functions, float32 rounding) is outside what Dafny's reals express. All sample and probability values are exact reals.
- The ONNX session, the construction of `feeds` from `inputNames`, and the output selection (js/worker.js:240-251; test_MULTI-ALIGNED_INT8_stream_audio.py:166-179) are modelled as one parameter: the outcome of the inference cycle (worker) or a function from the clip to probabilities or to nothing when it raises (harness). The torchaudio preprocessing (test_MULTI-ALIGNED_INT8_stream_audio.py:92-101) is part of that parameter; its exceptions are the parameter's `None`.
- Worker concurrency: `onmessage` is `async`, and a second message could run while an inference is awaited. The model treats each message to completion, one at a time.
- INIT's network model loading is a boolean parameter `loaded`. Console logging and the `inputNames` payload of LOADED are left out.
- WAV and JSON file I/O, stereo averaging of interleaved channels (test_MULTI-ALIGNED_INT8_stream_audio.py:137-139), timing, latency and `format_time`, and all printing are left out. `calculate_metrics` returning `None` on an unreadable file is left out: the ground truth is given already parsed.
- StreamHarness.RunFileTest: records each detection as the index of the chunk on whose arrival it fired, not as the millisecond timestamp `frame_idx / rate * 1000 - 400`. That timestamp is a float function of the chunk index, and `calculate_metrics` is modelled over given millisecond values.
- StreamHarness.LinspaceIndex: uses exact rational arithmetic for `np.linspace(...).astype(int)`. Float rounding of `i * step` could, in principle, move an index down by one.
- js/wakeword.js (microphone capture and chunking, UI callbacks) and the other page scripts are not part of this model.

## Findings

| source | as written | input that shows it | evidently intended | confidence | as-written member | corrected member |
|---|---|---|---|---|---|---|
| js/worker.js:99-111 | `paddedBuffer` (16400 samples, window at offset 200) is built but the frame loop slices the unpadded `audioBuffer` | any 16000-sample window: frames 98, 99, 100 have 320, 160 and 0 samples, so frame 100's spectrum is a single zero bin | slice frames from `paddedBuffer`, giving 101 full, centred 400-sample frames | medium, not executed | Features.TailFramesShort | Features.PaddedFramesFull |
