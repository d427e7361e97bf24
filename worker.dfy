/** The browser worker's wake-word state machine (js/worker.js): one
    `PROCESS` message absorbs an audio chunk into the 1-second rolling
    buffer, then either burns a cooldown tick or runs one inference cycle
    through the 3-entry probability history and the arm/confirm trigger.

    The inference cycle (feature extraction, standardisation, the ONNX
    session and softmax) is an input of each step: the probability vector
    it produced, or the fact that it threw. `State` and `Step` specify one
    message on values; the class `Worker` is the worker's module-level
    state, updated in place, and its methods are proved against them. */
module WakeWorker {
  import opened Sequences
  import Features

  const WindowSize := Features.BufferLength
  const HistoryCapacity := 3
  const ConfidenceThreshold := 0.75
  const CooldownCycles := 10

  /** A JavaScript number as the averaging leaves it: reading class 1 of a
      vector that has no class 1 yields `undefined`, and the sum becomes NaN. */
  datatype Score = Finite(value: real) | NaN

  /** `x >= bound` in JavaScript: false for NaN. */
  predicate AtLeast(x: Score, bound: real)
  {
    x.Finite? && x.value >= bound
  }

  /** Outcome of one inference cycle: softmax probabilities, or a thrown error. */
  datatype Inference = Probs(p: seq<real>) | Threw

  /** What the worker posts back (console logging is not an event). */
  datatype Event = Silent | PreTrigger | Detected(prob: Score) | Loaded | LoadError

  /** The worker's module-level state: whether a session exists, the rolling
      buffer, `probHistory`, `isTriggered`, `postTriggerCount`, `cooldown`. */
  datatype State = State(
    hasSession: bool,
    buffer: seq<real>,
    history: seq<seq<real>>,
    isTriggered: bool,
    postTriggerCount: int,
    cooldown: int)

  /** What every reachable state satisfies. */
  predicate Valid(s: State)
  {
    |s.buffer| == WindowSize && |s.history| <= HistoryCapacity && 0 <= s.cooldown <= CooldownCycles
  }

  /** The state when the worker script has loaded: no session, silence, idle. */
  function Initial(): (s: State)
    ensures Valid(s)
  {
    State(false, Zeros(WindowSize), [], false, 0, 0)
  }

  // ------------------------------------------------------------ smoothing

  /** `avgProbCenter += p[1]` over the history, left to right. */
  function CenterSum(h: seq<seq<real>>): Score
  {
    if h == [] then Finite(0.0)
    else match CenterSum(h[..|h| - 1])
      case NaN => NaN
      case Finite(v) => if |h[|h| - 1]| < 2 then NaN else Finite(v + h[|h| - 1][1])
  }

  /** `avgProbCenter /= probHistory.length` (0 / 0 is NaN). */
  function CenterMean(h: seq<seq<real>>): Score
  {
    if h == [] then NaN
    else match CenterSum(h) case NaN => NaN case Finite(v) => Finite(v / |h| as real)
  }

  /** The class-1 probabilities of the history entries, oldest first. */
  function Centers(h: seq<seq<real>>): (c: seq<real>)
    requires forall k :: 0 <= k < |h| ==> |h[k]| >= 2
    ensures |c| == |h|
  {
    seq(|h|, k requires 0 <= k < |h| && |h[k]| >= 2 => h[k][1])
  }

  lemma {:induction false} CenterSumIsSum(h: seq<seq<real>>)
    requires forall k :: 0 <= k < |h| ==> |h[k]| >= 2
    ensures CenterSum(h) == Finite(Sum(Centers(h)))
  {
    if h != [] {
      CenterSumIsSum(h[..|h| - 1]);
      assert Centers(h)[..|h| - 1] == Centers(h[..|h| - 1]);
    }
  }

  lemma {:induction false} CenterSumShort(h: seq<seq<real>>, k: nat)
    requires k < |h| && |h[k]| < 2
    ensures CenterSum(h) == NaN
  {
    if k < |h| - 1 {
      CenterSumShort(h[..|h| - 1], k);
    }
  }

  /** The smoothed value is the arithmetic mean of class 1 over the entries
      present; it is NaN exactly when the history is empty or some entry has
      no class 1; and it is a probability when the entries' class 1 values are. */
  lemma CenterMeanIsMean(h: seq<seq<real>>)
    ensures CenterMean(h).Finite? <==> h != [] && forall k :: 0 <= k < |h| ==> |h[k]| >= 2
    ensures CenterMean(h).Finite? ==> CenterMean(h).value == Mean(Centers(h))
    ensures CenterMean(h).Finite? && (forall k :: 0 <= k < |h| ==> 0.0 <= h[k][1] <= 1.0) ==>
      0.0 <= CenterMean(h).value <= 1.0
  {
    if h != [] {
      if forall k :: 0 <= k < |h| ==> |h[k]| >= 2 {
        CenterSumIsSum(h);
        if forall k :: 0 <= k < |h| ==> 0.0 <= h[k][1] <= 1.0 {
          MeanBounds(Centers(h), 0.0, 1.0);
        }
      } else {
        var k :| 0 <= k < |h| && |h[k]| < 2;
        CenterSumShort(h, k);
      }
    }
  }

  // ----------------------------------------------------------------- step

  /** One `PROCESS` message carrying `chunk`; `inference` is what the
      inference cycle yields if one runs. */
  function Step(s: State, chunk: seq<real>, inference: Inference): (State, Event)
  {
    if !s.hasSession then (s, Silent)
    else Cycle(s.(buffer := LastN(s.buffer + chunk, WindowSize)), inference)
  }

  /** What follows the buffer update: a cooldown tick, or one inference
      cycle that pushes its probabilities into the history and then runs
      the arm/confirm trigger. */
  function Cycle(s: State, inference: Inference): (State, Event)
  {
    if s.cooldown > 0 then (s.(cooldown := s.cooldown - 1), Silent)
    else match inference
      case Threw => (s, Silent)
      case Probs(p) => Decide(s.(history := LastN(s.history + [p], HistoryCapacity)))
  }

  /** The arm/confirm trigger on the updated history: an idle detector arms
      when the smoothed class-1 probability reaches the threshold; an armed
      one counts the cycle and, once the count reaches 1, reports and resets. */
  function Decide(s: State): (State, Event)
  {
    var avg := CenterMean(s.history);
    if !s.isTriggered then
      if AtLeast(avg, ConfidenceThreshold) then (s.(isTriggered := true, postTriggerCount := 0), PreTrigger)
      else (s, Silent)
    else
      var n := s.postTriggerCount + 1;
      if n >= 1 then
        (s.(buffer := Zeros(WindowSize), history := [], isTriggered := false, postTriggerCount := n,
            cooldown := CooldownCycles), Detected(avg))
      else (s.(postTriggerCount := n), Silent)
  }

  /** `Step` keeps every state valid. */
  lemma StepValid(s: State, chunk: seq<real>, inference: Inference)
    requires Valid(s)
    ensures Valid(Step(s, chunk, inference).0)
  {
  }

  /** Before a session exists a message changes nothing, not even the buffer. */
  lemma NoSessionNoChange(s: State, chunk: seq<real>, inference: Inference)
    requires !s.hasSession
    ensures Step(s, chunk, inference) == (s, Silent)
  {
  }

  /** With a session the buffer stays 16000 samples long: the last 16000 of
      the old buffer followed by the chunk, or silence after a detection. */
  lemma BufferAfterStep(s: State, chunk: seq<real>, inference: Inference)
    requires Valid(s) && s.hasSession
    ensures |Step(s, chunk, inference).0.buffer| == WindowSize
    ensures Step(s, chunk, inference).1.Detected? ==> Step(s, chunk, inference).0.buffer == Zeros(WindowSize)
    ensures !Step(s, chunk, inference).1.Detected? ==>
      Step(s, chunk, inference).0.buffer == LastN(s.buffer + chunk, WindowSize)
  {
  }

  /** While cooling down a message only absorbs the chunk and burns one tick:
      history, trigger flag and counter are untouched and nothing is posted. */
  lemma CooldownTick(s: State, chunk: seq<real>, inference: Inference)
    requires s.hasSession && s.cooldown > 0
    ensures Step(s, chunk, inference) ==
      (s.(buffer := LastN(s.buffer + chunk, WindowSize), cooldown := s.cooldown - 1), Silent)
  {
  }

  /** An inference cycle that throws changes nothing but the buffer and posts nothing. */
  lemma ThrowKeepsLogic(s: State, chunk: seq<real>)
    requires s.hasSession && s.cooldown <= 0
    ensures Step(s, chunk, Threw) == (s.(buffer := LastN(s.buffer + chunk, WindowSize)), Silent)
  {
  }

  /** When an inference cycle completes without a detection, the history is
      the newest three vectors in arrival order, ending with this cycle's. */
  lemma HistoryAfterCycle(s: State, chunk: seq<real>, p: seq<real>)
    requires Valid(s) && s.hasSession && s.cooldown == 0
    ensures var (t, ev) := Step(s, chunk, Probs(p));
      !ev.Detected? ==>
        (t.history == LastN(s.history + [p], HistoryCapacity)
         && 1 <= |t.history| <= HistoryCapacity && t.history[|t.history| - 1] == p)
  {
  }

  /** An idle detector arms and posts PRE_TRIGGER exactly when the smoothed
      class-1 probability reaches 0.75. */
  lemma ArmsExactlyAtThreshold(s: State, chunk: seq<real>, p: seq<real>)
    requires s.hasSession && s.cooldown <= 0 && !s.isTriggered
    ensures var (t, ev) := Step(s, chunk, Probs(p));
      (ev == PreTrigger <==> AtLeast(CenterMean(LastN(s.history + [p], HistoryCapacity)), ConfidenceThreshold))
      && t.isTriggered == (ev == PreTrigger) && !ev.Detected?
  {
  }

  /** An armed detector (counter not negative) posts DETECTED on the very next
      completed inference cycle, whatever the probabilities, and resets:
      silent buffer, empty history, disarmed, cooldown 10. */
  lemma ConfirmsNextCycle(s: State, chunk: seq<real>, p: seq<real>)
    requires s.hasSession && s.cooldown <= 0 && s.isTriggered && s.postTriggerCount >= 0
    ensures var (t, ev) := Step(s, chunk, Probs(p));
      ev == Detected(CenterMean(LastN(s.history + [p], HistoryCapacity)))
      && t.buffer == Zeros(WindowSize) && t.history == [] && !t.isTriggered && t.cooldown == CooldownCycles
  {
  }

  /** What the states the worker reaches satisfy beyond `Valid`: the
      counter is never negative, and an armed detector has not counted a
      cycle yet. (Kept apart from `Valid` so that `Decide` keeps the
      counter's `>= 1` test as written.) */
  predicate Reach(s: State)
  {
    Valid(s) && s.postTriggerCount >= 0 && (s.isTriggered ==> s.postTriggerCount == 0)
  }

  /** The script's initial state is reachable. */
  lemma InitialReach()
    ensures Reach(Initial())
  {
  }

  /** Every message keeps the worker in a reachable state. */
  lemma StepReach(s: State, chunk: seq<real>, inference: Inference)
    requires Reach(s)
    ensures Reach(Step(s, chunk, inference).0)
  {
  }

  /** From any reachable state, a message that posts PRE_TRIGGER is followed
      by DETECTED on the next message whose inference completes, whatever
      its probabilities: arming happens only outside cooldown, so the next
      cycle runs. */
  lemma ArmThenConfirm(s: State, c1: seq<real>, p1: seq<real>, c2: seq<real>, p2: seq<real>)
    requires Reach(s) && Step(s, c1, Probs(p1)).1 == PreTrigger
    ensures var t := Step(s, c1, Probs(p1)).0;
      Reach(t) && Step(t, c2, Probs(p2)).1 == Detected(CenterMean(LastN(t.history + [p2], HistoryCapacity)))
  {
  }

  /** Whatever posts DETECTED leaves the reset state behind, and only an
      armed detector outside cooldown can post it. */
  lemma DetectionResets(s: State, chunk: seq<real>, inference: Inference)
    requires Step(s, chunk, inference).1.Detected?
    ensures s.hasSession && s.isTriggered && s.cooldown <= 0 && inference.Probs?
    ensures var t := Step(s, chunk, inference).0;
      t.buffer == Zeros(WindowSize) && t.history == [] && !t.isTriggered && t.cooldown == CooldownCycles
  {
  }

  // ---------------------------------------------------------------- traces

  /** One `PROCESS` message: its chunk and what its inference cycle would yield. */
  datatype Message = Message(chunk: seq<real>, inference: Inference)

  /** The events posted for a sequence of `PROCESS` messages, in order. */
  function Events(s: State, msgs: seq<Message>): (evs: seq<Event>)
    ensures |evs| == |msgs|
    decreases |msgs|
  {
    if msgs == [] then []
    else
      var r := Step(s, msgs[0].chunk, msgs[0].inference);
      [r.1] + Events(r.0, msgs[1..])
  }

  /** The fewest messages, counting the one that posts it, before the next DETECTED. */
  function Distance(s: State): int
  {
    s.cooldown + if s.isTriggered then 1 else 2
  }

  lemma StepDistance(s: State, chunk: seq<real>, inference: Inference)
    requires Valid(s)
    ensures var (t, ev) := Step(s, chunk, inference);
      if ev.Detected? then Distance(s) == 1 && Distance(t) == CooldownCycles + 2
      else Distance(t) >= Distance(s) - 1
  {
  }

  lemma {:induction false} NoDetectionWithinDistance(s: State, msgs: seq<Message>, j: nat)
    requires Valid(s) && j < |msgs| && Events(s, msgs)[j].Detected?
    ensures j + 1 >= Distance(s)
    decreases j
  {
    var t := Step(s, msgs[0].chunk, msgs[0].inference).0;
    StepDistance(s, msgs[0].chunk, msgs[0].inference);
    if j > 0 {
      StepValid(s, msgs[0].chunk, msgs[0].inference);
      assert Events(s, msgs)[j] == Events(t, msgs[1..])[j - 1];
      NoDetectionWithinDistance(t, msgs[1..], j - 1);
    }
  }

  /** Two DETECTED events are at least 12 `PROCESS` messages apart: ten
      cooldown ticks, one cycle to arm, one to confirm. */
  lemma {:induction false} DetectionsApart(s: State, msgs: seq<Message>, i: nat, j: nat)
    requires Valid(s) && i < j < |msgs|
    requires Events(s, msgs)[i].Detected? && Events(s, msgs)[j].Detected?
    ensures j - i >= CooldownCycles + 2
    decreases i
  {
    var t := Step(s, msgs[0].chunk, msgs[0].inference).0;
    StepValid(s, msgs[0].chunk, msgs[0].inference);
    assert Events(s, msgs)[j] == Events(t, msgs[1..])[j - 1];
    if i == 0 {
      StepDistance(s, msgs[0].chunk, msgs[0].inference);
      NoDetectionWithinDistance(t, msgs[1..], j - 1);
    } else {
      assert Events(s, msgs)[i] == Events(t, msgs[1..])[i - 1];
      DetectionsApart(t, msgs[1..], i - 1, j - 1);
    }
  }

  // ---------------------------------------------------------------- worker

  /** The worker's module-level state, updated in place by each message. */
  class Worker {
    var hasSession: bool
    var buffer: array<real>
    var history: seq<seq<real>>
    var isTriggered: bool
    var postTriggerCount: int
    var cooldown: int

    /** The module-level `Valid` of `Snapshot()`, stated on the fields so
        that it does not read the buffer's contents, which `Absorb` rewrites. */
    ghost predicate Valid()
      reads this
    {
      buffer.Length == WindowSize && |history| <= HistoryCapacity && 0 <= cooldown <= CooldownCycles
    }

    /** The state as a value. */
    ghost function Snapshot(): State
      reads this, buffer
    {
      State(hasSession, buffer[..], history, isTriggered, postTriggerCount, cooldown)
    }

    constructor ()
      ensures Valid() && Snapshot() == Initial() && fresh(buffer)
    {
      hasSession := false;
      buffer := new real[WindowSize](_ => 0.0);
      history := [];
      isTriggered := false;
      postTriggerCount := 0;
      cooldown := 0;
    }

    /** `INIT`: a model that loads becomes the session and LOADED is posted;
        a failed load posts ERROR and keeps whatever session there was. */
    method Init(loaded: bool) returns (ev: Event)
      requires Valid()
      modifies this
      ensures Valid() && buffer == old(buffer)
      ensures Snapshot() == old(Snapshot()).(hasSession := old(hasSession) || loaded)
      ensures ev == if loaded then Loaded else LoadError
    {
      if loaded {
        hasSession := true;
        ev := Loaded;
      } else {
        ev := LoadError;
      }
    }

    /** The buffer update: keep the last 16000 samples of buffer followed by
        chunk, either by replacing it with the chunk's tail or by shifting
        left (`copyWithin`) and writing the chunk at the end (`set`). */
    method Absorb(chunk: seq<real>)
      requires Valid()
      modifies buffer
      ensures buffer[..] == LastN(old(buffer[..]) + chunk, WindowSize)
    {
      ghost var before := buffer[..];
      if |chunk| >= WindowSize {
        SetTail(chunk);
        assert (before + chunk)[|before| + |chunk| - WindowSize..] == chunk[|chunk| - WindowSize..];
      } else {
        ShiftIn(chunk);
        assert (before + chunk)[|chunk|..] == before[|chunk|..] + chunk;
      }
    }

    /** `buffer.set(chunk.slice(chunk.length - 16000))`. */
    method SetTail(chunk: seq<real>)
      requires Valid() && |chunk| >= WindowSize
      modifies buffer
      ensures buffer[..] == chunk[|chunk| - WindowSize..]
    {
      var n := |chunk|;
      for i := 0 to WindowSize
        invariant forall k :: 0 <= k < i ==> buffer[k] == chunk[n - WindowSize + k]
      {
        buffer[i] := chunk[n - WindowSize + i];
      }
    }

    /** `buffer.copyWithin(0, chunk.length)` then `buffer.set(chunk, 16000 - chunk.length)`. */
    method ShiftIn(chunk: seq<real>)
      requires Valid() && |chunk| < WindowSize
      modifies buffer
      ensures buffer[..] == old(buffer[..])[|chunk|..] + chunk
    {
      ghost var before := buffer[..];
      var n := |chunk|;
      for i := 0 to WindowSize - n
        invariant forall k :: 0 <= k < i ==> buffer[k] == before[k + n]
        invariant forall k :: i <= k < WindowSize ==> buffer[k] == before[k]
      {
        buffer[i] := buffer[i + n];
      }
      for i := 0 to n
        invariant forall k :: 0 <= k < WindowSize - n ==> buffer[k] == before[k + n]
        invariant forall k :: 0 <= k < i ==> buffer[WindowSize - n + k] == chunk[k]
      {
        buffer[WindowSize - n + i] := chunk[i];
      }
    }

    /** `PROCESS`: one message, proved against `Step`. */
    method Process(chunk: seq<real>, inference: Inference) returns (ev: Event)
      requires Valid()
      modifies this, buffer
      ensures Valid()
      ensures (Snapshot(), ev) == Step(old(Snapshot()), chunk, inference)
    {
      if !hasSession {
        return Silent;
      }
      Absorb(chunk);
      ev := RunCycle(inference);
    }

    /** Everything after the buffer update, proved against `Cycle`. */
    method RunCycle(inference: Inference) returns (ev: Event)
      requires Valid() && hasSession
      modifies this
      ensures Valid()
      ensures (Snapshot(), ev) == Cycle(old(Snapshot()), inference)
    {
      if cooldown > 0 {
        cooldown := cooldown - 1;
        return Silent;
      }
      match inference
      case Threw =>
        ev := Silent;
      case Probs(p) =>
        history := history + [p];
        if |history| > HistoryCapacity {
          history := history[1..];
        }
        assert history == LastN(old(history) + [p], HistoryCapacity);
        ev := Trigger();
    }

    /** The trigger logic after the history update, proved against `Decide`. */
    method Trigger() returns (ev: Event)
      requires Valid() && hasSession
      modifies this
      ensures Valid()
      ensures (Snapshot(), ev) == Decide(old(Snapshot()))
    {
      var avg := AverageCenter(history);
      if !isTriggered {
        if AtLeast(avg, ConfidenceThreshold) {
          isTriggered := true;
          postTriggerCount := 0;
          ev := PreTrigger;
        } else {
          ev := Silent;
        }
      } else {
        postTriggerCount := postTriggerCount + 1;
        if postTriggerCount >= 1 {
          ev := Detected(avg);
          buffer := new real[WindowSize](_ => 0.0);
          assert buffer[..] == Zeros(WindowSize);
          history := [];
          isTriggered := false;
          cooldown := CooldownCycles;
        } else {
          ev := Silent;
        }
      }
    }
  }

  /** The averaging loop over the history, proved against `CenterMean`. */
  method AverageCenter(history: seq<seq<real>>) returns (avg: Score)
    ensures avg == CenterMean(history)
  {
    var sum := Finite(0.0);
    for i := 0 to |history|
      invariant sum == CenterSum(history[..i])
    {
      assert history[..i + 1][..i] == history[..i];
      sum := if sum.NaN? || |history[i]| < 2 then NaN else Finite(sum.value + history[i][1]);
    }
    assert history[..|history|] == history;
    avg := if history == [] || sum.NaN? then NaN else Finite(sum.value / |history| as real);
  }
}
