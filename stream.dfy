/** The offline streaming harness (`OnnxStreamingEngine.run_file_test` in
    test_MULTI-ALIGNED_INT8_stream_audio.py): audio read in 100 ms chunks is
    resampled to 16 kHz, kept in a deque of the last 10 chunks, assembled
    into a 16000-sample clip, scored by the model, and a detection fires on
    the mean of the last three wake scores, with a 10-cycle cooldown.

    The model (preprocessing, the ONNX session and softmax) is a parameter:
    a function from the clip to the class probabilities, or to `None` when
    one of them raises. Detections are
    recorded as the index of the chunk on whose arrival they fired. */
module StreamHarness {
  import opened Sequences

  const ClipLength := 16000
  const DequeCapacity := 10
  const HistoryCapacity := 3
  const ConfidenceThreshold := 0.50
  const CooldownCycles := 10

  datatype Option<T> = None | Some(value: T)

  /** `_preprocess`, `sess.run` and `softmax` on one clip: the class
      probabilities, or `None` when any of them raises (nothing catches it,
      so the run ends). */
  type Model = seq<real> -> Option<seq<real>>

  /** A WAV sample: `np.int16`. */
  newtype Int16 = x: int | -32768 <= x < 32768

  // ------------------------------------------------------------ resampling

  /** `samples[::3]`: every third sample, starting with the first. */
  function EveryThird<T>(samples: seq<T>): seq<T>
    decreases |samples|
  {
    if samples == [] then []
    else [samples[0]] + EveryThird(samples[if |samples| < 3 then |samples| else 3..])
  }

  /** Slicing with step 3 keeps indices 0, 3, 6, ..., so ceil(n / 3) samples. */
  lemma {:induction false} EveryThirdPicks<T>(samples: seq<T>)
    ensures |EveryThird(samples)| == (|samples| + 2) / 3
    ensures forall k :: 0 <= k < |EveryThird(samples)| ==> EveryThird(samples)[k] == samples[3 * k]
    decreases |samples|
  {
    if samples != [] {
      var rest := samples[if |samples| < 3 then |samples| else 3..];
      EveryThirdPicks(rest);
      var e := EveryThird(samples);
      assert e == [samples[0]] + EveryThird(rest);
      assert |rest| == if |samples| < 3 then 0 else |samples| - 3;
      forall k | 1 <= k < |e|
        ensures e[k] == samples[3 * k]
      {
        assert e[k] == EveryThird(rest)[k - 1] == rest[3 * (k - 1)];
      }
    }
  }

  /** Multiplying by a non-negative factor keeps order. */
  lemma MulLeft(c: int, a: int, b: int)
    requires 0 <= c && a <= b
    ensures c * a <= c * b
  {
  }

  /** Cancelling a positive factor from a strict inequality. */
  lemma MulCancelLt(d: int, x: int, y: int)
    requires 0 < d && d * x < d * y
    ensures x < y
  {
  }

  lemma DivMonotone(a: int, b: int, d: int)
    requires 0 <= a <= b && 0 < d
    ensures a / d <= b / d
  {
    var qa, qb := a / d, b / d;
    assert d * qa <= a;
    assert b < d * qb + d == d * (qb + 1);
    MulCancelLt(d, qa, qb + 1);
  }

  lemma MulDiv(a: int, d: int)
    requires 0 < d
    ensures d * a / d == a
  {
    var q := d * a / d;
    assert d * q <= d * a < d * q + d == d * (q + 1);
    MulCancelLt(d, q, a + 1);
    assert d * a < d * (q + 1);
    MulCancelLt(d, a, q + 1);
  }

  /** Entry `k` of `np.linspace(0, n - 1, m).astype(int)`: `m` evenly spaced
      points from the first to the last index, truncated, in exact arithmetic. */
  function LinspaceIndex(n: nat, m: nat, k: nat): (i: nat)
    requires k < m <= n
    ensures i < n
  {
    if m == 1 then 0
    else
      SpacedBelowLast(n - 1, m - 1, k);
      k * (n - 1) / (m - 1)
  }

  /** Point `k` of `d + 1` spaced points over `[0, last]` does not pass `last`. */
  lemma SpacedBelowLast(last: nat, d: nat, k: nat)
    requires 0 < d && k <= d
    ensures 0 <= k * last / d <= last
  {
    MulLeft(last, k, d);
    DivMonotone(k * last, last * d, d);
    MulDiv(last, d);
  }

  /** The spaced indices are in increasing order. */
  lemma LinspaceInOrder(n: nat, m: nat, j: nat, k: nat)
    requires j <= k < m <= n
    ensures LinspaceIndex(n, m, j) <= LinspaceIndex(n, m, k)
  {
    if m > 1 {
      MulLeft(n - 1, j, k);
      assert (n - 1) * j == j * (n - 1) && (n - 1) * k == k * (n - 1);
      DivMonotone(j * (n - 1), k * (n - 1), m - 1);
    }
  }

  /** The spaced indices start at the first sample and, with two or more
      points, end at the last. */
  lemma LinspaceEnds(n: nat, m: nat)
    requires 0 < m <= n
    ensures LinspaceIndex(n, m, 0) == 0
    ensures 2 <= m ==> LinspaceIndex(n, m, m - 1) == n - 1
  {
    if 2 <= m {
      MulDiv(n - 1, m - 1);
    }
  }

  /** The 44.1 kHz branch: `int(n * 16000 / 44100)` samples picked at the
      `linspace` indices. */
  function Pick441(samples: seq<Int16>): (r: seq<Int16>)
    ensures |r| == |samples| * 16000 / 44100
    ensures forall k :: 0 <= k < |r| ==> r[k] == samples[LinspaceIndex(|samples|, |r|, k)]
  {
    var n := |samples|;
    var m := n * 16000 / 44100;
    assert m <= n;
    seq(m, k requires 0 <= k < m => samples[LinspaceIndex(n, m, k)])
  }

  /** The harness's resampling to 16 kHz: 48 kHz is decimated by three,
      44.1 kHz is picked at evenly spaced indices, 16 kHz and unrecognised
      rates pass through unchanged. */
  function Resample(rate: int, samples: seq<Int16>): (r: seq<Int16>)
    ensures rate == 48000 ==> |r| == (|samples| + 2) / 3 && forall k :: 0 <= k < |r| ==> r[k] == samples[3 * k]
    ensures rate == 44100 ==> (|r| == |samples| * 16000 / 44100
      && forall k :: 0 <= k < |r| ==> r[k] == samples[LinspaceIndex(|samples|, |r|, k)])
    ensures rate != 48000 && rate != 44100 ==> r == samples
  {
    if rate == 16000 then samples
    else if rate == 48000 then (EveryThirdPicks(samples); EveryThird(samples))
    else if rate == 44100 then Pick441(samples)
    else samples
  }

  /** A full read of `int(rate * 0.1)` frames at any of the three recognised
      rates resamples to 1600 samples, a tenth of the 16000-sample clip. */
  lemma FullReadIsTenthOfClip(rate: int, samples: seq<Int16>)
    requires rate == 16000 || rate == 44100 || rate == 48000
    requires |samples| == rate / 10
    ensures |Resample(rate, samples)| * DequeCapacity == ClipLength
  {
    if rate == 44100 {
      assert |samples| * 16000 / 44100 == 4410 * 16000 / 44100 == 1600;
    }
  }

  /** `resampled.astype(np.float32) / 32768.0`: every sample lands in [-1, 1). */
  function ToUnit(samples: seq<Int16>): (r: seq<real>)
    ensures |r| == |samples|
    ensures forall k :: 0 <= k < |r| ==> -1.0 <= r[k] < 1.0 && r[k] * 32768.0 == samples[k] as real
  {
    seq(|samples|, k requires 0 <= k < |samples| => samples[k] as real / 32768.0)
  }

  // ---------------------------------------------------------- clip assembly

  /** `torch.cat(list(buffer_16k))`. */
  function Concat(chunks: seq<seq<real>>): seq<real>
  {
    if chunks == [] then [] else Concat(chunks[..|chunks| - 1]) + chunks[|chunks| - 1]
  }

  /** Concatenating chunks of `width` samples each gives `|chunks| * width` samples. */
  lemma {:induction false} ConcatLength(chunks: seq<seq<real>>, width: nat)
    requires forall k :: 0 <= k < |chunks| ==> |chunks[k]| == width
    ensures |Concat(chunks)| == |chunks| * width
  {
    if chunks != [] {
      var n := |chunks| - 1;
      ConcatLength(chunks[..n], width);
      assert |Concat(chunks)| == n * width + width;
      assert n * width + width == (n + 1) * width;
    }
  }

  /** The model input: the last 16000 samples of a longer clip, or the clip
      followed by zeros when it is shorter. */
  function FitClip(clip: seq<real>): (r: seq<real>)
    ensures |r| == ClipLength
    ensures |clip| >= ClipLength ==> r == clip[|clip| - ClipLength..]
    ensures |clip| < ClipLength ==> r[..|clip|] == clip && forall k :: |clip| <= k < ClipLength ==> r[k] == 0.0
  {
    if |clip| > ClipLength then clip[|clip| - ClipLength..]
    else if |clip| < ClipLength then clip + Zeros(ClipLength - |clip|)
    else clip
  }

  /** At 100 ms chunks of 1600 resampled samples, the ten chunks of a full
      deque are exactly the model input, without cutting or padding. */
  lemma FullDequeIsClip(chunks: seq<seq<real>>)
    requires |chunks| == DequeCapacity && forall k :: 0 <= k < |chunks| ==> |chunks[k]| == 1600
    ensures FitClip(Concat(chunks)) == Concat(chunks)
  {
    ConcatLength(chunks, 1600);
  }

  // ------------------------------------------------------------- wake score

  /** `p_wake`: the sum of the non-background classes when there are more
      than two, class 1 otherwise; `probs[1]` raises on fewer than two. */
  function WakeScore(probs: seq<real>): (r: Option<real>)
    ensures r.None? <==> |probs| < 2
  {
    if |probs| > 2 then Some(Sum(probs[1..]))
    else if |probs| == 2 then Some(probs[1])
    else None
  }

  /** On a probability distribution both branches of `p_wake` agree: it is
      one minus the background probability, and a probability itself. */
  lemma WakeScoreIsNotBackground(probs: seq<real>)
    requires |probs| >= 2 && Sum(probs) == 1.0
    requires forall k :: 0 <= k < |probs| ==> 0.0 <= probs[k]
    ensures WakeScore(probs) == Some(1.0 - probs[0])
    ensures 0.0 <= 1.0 - probs[0] <= 1.0
  {
    SumCons(probs);
    SumNonNegative(probs[1..]);
    if |probs| == 2 {
      assert Sum(probs[1..]) == Sum([]) + probs[1];
    }
  }

  // ---------------------------------------------------------------- stream

  /** The loop's state: the chunk deque, the wake-score history, the cooldown. */
  datatype StreamState = StreamState(window: seq<seq<real>>, history: seq<real>, cooldown: int)

  /** One chunk arrival: `None` when the model or `probs[1]` raises,
      otherwise the new state and whether a detection fired. */
  function StreamStep(s: StreamState, chunk: seq<real>, model: Model): Option<(StreamState, bool)>
  {
    var window := LastN(s.window + [chunk], DequeCapacity);
    if |window| < DequeCapacity then Some((s.(window := window), false))
    else match model(FitClip(Concat(window)))
      case None => None
      case Some(probs) =>
      match WakeScore(probs)
      case None => None
      case Some(w) =>
        var h := LastN(s.history + [w], HistoryCapacity);
        if s.cooldown > 0 then Some((StreamState(window, h, s.cooldown - 1), false))
        else if Mean(h) >= ConfidenceThreshold then Some((StreamState(window, [], CooldownCycles), true))
        else Some((StreamState(window, h, s.cooldown), false))
  }

  /** The state and detections after the given chunks, or `None` if a cycle raised. */
  function Stream(chunks: seq<seq<real>>, model: Model): Option<(StreamState, seq<nat>)>
    decreases |chunks|
  {
    if chunks == [] then Some((StreamState([], [], 0), []))
    else match Stream(chunks[..|chunks| - 1], model)
      case None => None
      case Some((s, found)) =>
        match StreamStep(s, chunks[|chunks| - 1], model)
        case None => None
        case Some((t, fired)) => Some((t, if fired then found + [|chunks| - 1] else found))
  }

  /** A cycle that raised ends the run: no later chunk is processed. */
  lemma {:induction false} RaiseEndsRun(chunks: seq<seq<real>>, model: Model, i: nat)
    requires i <= |chunks| && Stream(chunks[..i], model).None?
    ensures Stream(chunks, model).None?
    decreases |chunks| - i
  {
    if i < |chunks| {
      assert chunks[..i + 1][..i] == chunks[..i];
      RaiseEndsRun(chunks, model, i + 1);
    } else {
      assert chunks[..i] == chunks;
    }
  }

  /** Until ten chunks have arrived the model is not consulted: nothing
      is scored, nothing fires, and the deque holds every chunk so far. */
  lemma {:induction false} WarmUp(chunks: seq<seq<real>>, model: Model)
    requires |chunks| < DequeCapacity
    ensures Stream(chunks, model) == Some((StreamState(chunks, [], 0), []))
    decreases |chunks|
  {
    if chunks != [] {
      WarmUp(chunks[..|chunks| - 1], model);
      assert chunks[..|chunks| - 1] + [chunks[|chunks| - 1]] == chunks;
    }
  }

  /** Once the deque is full, every chunk is a scoring cycle. It ends the
      run exactly when the model raises or yields fewer than two classes.
      Otherwise the score is appended to the history even while cooling
      down; a detection fires exactly when the cooldown is over and the mean
      of the last three scores reaches 0.50, and it clears the history and
      restarts the cooldown. */
  lemma CycleRules(s: StreamState, chunk: seq<real>, model: Model)
    requires |s.window| == DequeCapacity
    ensures var window := LastN(s.window + [chunk], DequeCapacity);
      var outcome := model(FitClip(Concat(window)));
      match StreamStep(s, chunk, model)
      case None => outcome.None? || |outcome.value| < 2
      case Some((t, fired)) =>
        outcome.Some? && |outcome.value| >= 2 &&
        var h := LastN(s.history + [WakeScore(outcome.value).value], HistoryCapacity);
        t.window == window
        && (fired <==> s.cooldown <= 0 && Mean(h) >= ConfidenceThreshold)
        && (fired ==> t.history == [] && t.cooldown == CooldownCycles)
        && (!fired ==> t.history == h && t.cooldown == if s.cooldown > 0 then s.cooldown - 1 else s.cooldown)
  {
  }

  /** What holds after any prefix of the stream: the deque is the last ten
      chunks; the history has at most three scores; detections are in
      increasing chunk order, none before the tenth chunk, consecutive ones at
      least eleven chunks apart; and the cooldown still to run covers the
      chunks since the last detection. */
  predicate StreamInvariant(chunks: seq<seq<real>>, s: StreamState, found: seq<nat>)
  {
    s.window == LastN(chunks, DequeCapacity)
    && |s.history| <= HistoryCapacity
    && 0 <= s.cooldown <= CooldownCycles
    && (forall k :: 0 <= k < |found| ==> DequeCapacity - 1 <= found[k] < |chunks|)
    && (forall k :: 0 < k < |found| ==> found[k] - found[k - 1] >= CooldownCycles + 1)
    && (found != [] ==> s.cooldown + (|chunks| - 1 - found[|found| - 1]) >= CooldownCycles)
  }

  /** The invariant survives an arrival that either fires (outside
      cooldown, with a full deque) or does not fire and burns at most one
      cooldown tick. */
  lemma InvariantExtends(prefix: seq<seq<real>>, s: StreamState, found: seq<nat>, chunk: seq<real>,
                         t: StreamState, fired: bool)
    requires StreamInvariant(prefix, s, found)
    requires t.window == LastN(prefix + [chunk], DequeCapacity)
    requires |t.history| <= HistoryCapacity && 0 <= t.cooldown <= CooldownCycles
    requires fired ==> s.cooldown == 0 && t.cooldown == CooldownCycles && |prefix| >= DequeCapacity - 1
    requires !fired ==> t.cooldown >= s.cooldown - 1
    ensures StreamInvariant(prefix + [chunk], t, if fired then found + [|prefix|] else found)
  {
  }

  /** One chunk arrival keeps `StreamInvariant`. */
  lemma StepKeepsInvariant(prefix: seq<seq<real>>, s: StreamState, found: seq<nat>, chunk: seq<real>,
                           model: Model, t: StreamState, fired: bool)
    requires StreamInvariant(prefix, s, found)
    requires StreamStep(s, chunk, model) == Some((t, fired))
    ensures StreamInvariant(prefix + [chunk], t, if fired then found + [|prefix|] else found)
  {
    LastNAppend(prefix, [chunk], DequeCapacity);
    var window := LastN(s.window + [chunk], DequeCapacity);
    if |window| == DequeCapacity && fired {
      assert |prefix| >= DequeCapacity - 1;
    }
    InvariantExtends(prefix, s, found, chunk, t, fired);
  }

  lemma {:induction false} StreamKeepsInvariant(chunks: seq<seq<real>>, model: Model)
    ensures match Stream(chunks, model)
      case None => true
      case Some((s, found)) => StreamInvariant(chunks, s, found)
    decreases |chunks|
  {
    if chunks != [] {
      var prefix := chunks[..|chunks| - 1];
      StreamKeepsInvariant(prefix, model);
      assert prefix + [chunks[|chunks| - 1]] == chunks;
      match Stream(prefix, model)
      case None =>
      case Some((s, found)) =>
        match StreamStep(s, chunks[|chunks| - 1], model)
        case None =>
        case Some((t, fired)) =>
          StepKeepsInvariant(prefix, s, found, chunks[|chunks| - 1], model, t, fired);
    }
  }

  /** Any two detections of a run are at least 11 chunks apart per
      detection in between: ten cooldown cycles, then the next can fire. */
  lemma {:induction false} DetectionsApart(chunks: seq<seq<real>>, model: Model, i: nat, j: nat)
    requires Stream(chunks, model).Some?
    requires i < j < |Stream(chunks, model).value.1|
    ensures var found := Stream(chunks, model).value.1;
      found[j] - found[i] >= (CooldownCycles + 1) * (j - i)
    decreases j - i
  {
    StreamKeepsInvariant(chunks, model);
    if j > i + 1 {
      DetectionsApart(chunks, model, i, j - 1);
    }
  }

  /** `Stream` on one more chunk is `StreamStep` on the state so far. */
  lemma StreamExtends(chunks: seq<seq<real>>, model: Model, i: nat, s: StreamState, found: seq<nat>)
    requires i < |chunks| && Stream(chunks[..i], model) == Some((s, found))
    ensures Stream(chunks[..i + 1], model) == match StreamStep(s, chunks[i], model)
      case None => None
      case Some((t, fired)) => Some((t, if fired then found + [i] else found))
  {
    assert chunks[..i + 1][..i] == chunks[..i];
  }

  /** One arrival of the streaming loop, proved against `StreamStep`:
      `ok` is false when the model or `probs[1]` raised. */
  method Arrive(window: seq<seq<real>>, history: seq<real>, cooldown: int, chunk: seq<real>,
                model: Model)
    returns (ok: bool, window': seq<seq<real>>, history': seq<real>, cooldown': int, fired: bool)
    ensures StreamStep(StreamState(window, history, cooldown), chunk, model) ==
      if ok then Some((StreamState(window', history', cooldown'), fired)) else None
  {
    ok, fired := true, false;
    window' := LastN(window + [chunk], DequeCapacity);
    history', cooldown' := history, cooldown;
    if |window'| < DequeCapacity {
      return;
    }
    var outcome := model(FitClip(Concat(window')));
    if outcome.None? {
      ok := false;
      return;
    }
    var score := WakeScore(outcome.value);
    if score.None? {
      ok := false;
      return;
    }
    history' := LastN(history + [score.value], HistoryCapacity);
    if cooldown > 0 {
      cooldown' := cooldown - 1;
    } else if Mean(history') >= ConfidenceThreshold {
      fired := true;
      cooldown' := CooldownCycles;
      history' := [];
    }
  }

  /** The streaming loop, proved against `Stream`: the detections of the
      whole run, or `None` when a cycle raised. */
  method RunFileTest(chunks: seq<seq<real>>, model: Model) returns (detections: Option<seq<nat>>)
    ensures detections == match Stream(chunks, model) case None => None case Some((_, found)) => Some(found)
  {
    var window: seq<seq<real>> := [];
    var history: seq<real> := [];
    var cooldown := 0;
    var found: seq<nat> := [];
    for i := 0 to |chunks|
      invariant Stream(chunks[..i], model) == Some((StreamState(window, history, cooldown), found))
    {
      StreamExtends(chunks, model, i, StreamState(window, history, cooldown), found);
      var ok, fired;
      ok, window, history, cooldown, fired := Arrive(window, history, cooldown, chunks[i], model);
      if !ok {
        RaiseEndsRun(chunks, model, i + 1);
        return None;
      }
      if fired {
        found := found + [i];
      }
    }
    assert chunks[..|chunks|] == chunks;
    detections := Some(found);
  }
}
