/** The harness's scoring of detections against the ground truth
    (`calculate_metrics` in test_MULTI-ALIGNED_INT8_stream_audio.py): each
    detection is credited to the nearest "seven" start within tolerance,
    each start at most once, and TP/FP/FN/TN and the four rates follow.
    Times are milliseconds as reals; the ground truth is given already parsed. */
module Metrics {

  /** One ground-truth item: its word and its start time. */
  datatype Label = Label(word: string, startMs: real)

  /** The counts and rates `calculate_metrics` returns. */
  datatype Report = Report(tp: int, tn: int, fp: int, fn: int, acc: real, prec: real, rec: real, f1: real)

  function Abs(x: real): real
  {
    if x < 0.0 then -x else x
  }

  // ---------------------------------------------------------- ground truth

  /** `[item['start_ms'] for item in ground_truth if item['word'] == 'seven']`. */
  function SevenStarts(groundTruth: seq<Label>): seq<real>
  {
    if groundTruth == [] then []
    else
      var last := groundTruth[|groundTruth| - 1];
      SevenStarts(groundTruth[..|groundTruth| - 1]) + if last.word == "seven" then [last.startMs] else []
  }

  /** The number of items whose word is "other". */
  function CountOthers(groundTruth: seq<Label>): nat
  {
    if groundTruth == [] then 0
    else CountOthers(groundTruth[..|groundTruth| - 1]) + if groundTruth[|groundTruth| - 1].word == "other" then 1 else 0
  }

  /** An item is a "seven", an "other", or neither, so the two counts never
      exceed the number of items. */
  lemma {:induction false} LabelCounts(groundTruth: seq<Label>)
    ensures |SevenStarts(groundTruth)| + CountOthers(groundTruth) <= |groundTruth|
  {
    if groundTruth != [] {
      LabelCounts(groundTruth[..|groundTruth| - 1]);
    }
  }

  // ------------------------------------------------------------- matching

  /** `(best_gt_idx, best_diff)` after scanning the first `n` starts; an index
      of -1 stands for `best_diff = inf`. */
  function Scan(det: real, sevens: seq<real>, tolerance: real, n: nat): (int, real)
    requires n <= |sevens|
  {
    if n == 0 then (-1, 0.0)
    else
      var (best, bestDiff) := Scan(det, sevens, tolerance, n - 1);
      var diff := Abs(det - sevens[n - 1]);
      if diff <= tolerance && (best == -1 || diff < bestDiff) then (n - 1, diff) else (best, bestDiff)
  }

  /** The start a detection is credited to, or -1. */
  function NearestSeven(det: real, sevens: seq<real>, tolerance: real): int
  {
    Scan(det, sevens, tolerance, |sevens|).0
  }

  /** Among the first `n` starts, start `i` is within tolerance of the
      detection, no start is nearer, and every earlier start within
      tolerance is strictly farther. */
  predicate NearestAmong(det: real, sevens: seq<real>, tolerance: real, n: nat, i: int)
    requires n <= |sevens|
  {
    0 <= i < n && Abs(det - sevens[i]) <= tolerance
    && (forall j :: 0 <= j < n && Abs(det - sevens[j]) <= tolerance ==> Abs(det - sevens[i]) <= Abs(det - sevens[j]))
    && (forall j :: 0 <= j < i && Abs(det - sevens[j]) <= tolerance ==> Abs(det - sevens[i]) < Abs(det - sevens[j]))
  }

  /** The scan of the first `n` starts keeps -1 exactly while none is within
      tolerance, and otherwise holds the nearest of them and its distance. */
  lemma {:induction false} ScanFindsNearest(det: real, sevens: seq<real>, tolerance: real, n: nat)
    requires n <= |sevens|
    ensures var (best, bestDiff) := Scan(det, sevens, tolerance, n);
      (best == -1 <==> forall j :: 0 <= j < n ==> Abs(det - sevens[j]) > tolerance)
      && (best != -1 ==> NearestAmong(det, sevens, tolerance, n, best) && bestDiff == Abs(det - sevens[best]))
  {
    if n > 0 {
      ScanFindsNearest(det, sevens, tolerance, n - 1);
      var (b0, d0) := Scan(det, sevens, tolerance, n - 1);
      var diff := Abs(det - sevens[n - 1]);
      if diff <= tolerance && (b0 == -1 || diff < d0) {
        assert Scan(det, sevens, tolerance, n) == (n - 1, diff);
        assert NearestAmong(det, sevens, tolerance, n, n - 1);
      } else {
        assert Scan(det, sevens, tolerance, n) == (b0, d0);
        if b0 != -1 {
          assert NearestAmong(det, sevens, tolerance, n, b0);
        }
      }
    }
  }

  /** A detection is credited to the nearest start within tolerance, the
      first one on ties, and to none (-1) exactly when no start is within tolerance. */
  lemma NearestSevenIsNearest(det: real, sevens: seq<real>, tolerance: real)
    ensures NearestSeven(det, sevens, tolerance) == -1 <==>
      forall j :: 0 <= j < |sevens| ==> Abs(det - sevens[j]) > tolerance
    ensures NearestSeven(det, sevens, tolerance) != -1 ==>
      NearestAmong(det, sevens, tolerance, |sevens|, NearestSeven(det, sevens, tolerance))
  {
    ScanFindsNearest(det, sevens, tolerance, |sevens|);
  }

  /** The inner loop of `calculate_metrics`, proved against `NearestSeven`. */
  method Nearest(det: real, sevens: seq<real>, tolerance: real) returns (best: int)
    ensures best == NearestSeven(det, sevens, tolerance)
    ensures best == -1 <==> forall j :: 0 <= j < |sevens| ==> Abs(det - sevens[j]) > tolerance
    ensures best != -1 ==> NearestAmong(det, sevens, tolerance, |sevens|, best)
  {
    best := -1;
    var bestDiff := 0.0;
    for i := 0 to |sevens|
      invariant (best, bestDiff) == Scan(det, sevens, tolerance, i)
    {
      var diff := Abs(det - sevens[i]);
      if diff <= tolerance && (best == -1 || diff < bestDiff) {
        best, bestDiff := i, diff;
      }
    }
    NearestSevenIsNearest(det, sevens, tolerance);
  }

  /** `used_gt_indices` after the given detections: a detection adds its
      nearest start unless that start is already used. */
  function Credited(dets: seq<real>, sevens: seq<real>, tolerance: real): set<int>
  {
    if dets == [] then {}
    else
      var used := Credited(dets[..|dets| - 1], sevens, tolerance);
      var best := NearestSeven(dets[|dets| - 1], sevens, tolerance);
      if best != -1 && best !in used then used + {best} else used
  }

  lemma {:induction false} RangeBound(used: set<int>, n: nat)
    requires forall i :: i in used ==> 0 <= i < n
    ensures |used| <= n
  {
    if n == 0 {
      assert forall i :: i !in used;
      assert used == {};
    } else {
      RangeBound(used - {n - 1}, n - 1);
      if n - 1 in used {
        assert used == (used - {n - 1}) + {n - 1};
      } else {
        assert used == used - {n - 1};
      }
    }
  }

  /** Every credited start is a real start and the nearest one of some
      detection; each is credited once, so there are no more credits than
      detections and no more than starts. */
  lemma {:induction false} CreditedBounds(dets: seq<real>, sevens: seq<real>, tolerance: real)
    ensures forall i :: i in Credited(dets, sevens, tolerance) ==>
      0 <= i < |sevens| && exists k :: 0 <= k < |dets| && NearestSeven(dets[k], sevens, tolerance) == i
    ensures |Credited(dets, sevens, tolerance)| <= |dets|
    ensures |Credited(dets, sevens, tolerance)| <= |sevens|
  {
    if dets != [] {
      var prefix := dets[..|dets| - 1];
      CreditedBounds(prefix, sevens, tolerance);
      NearestSevenIsNearest(dets[|dets| - 1], sevens, tolerance);
      forall i | i in Credited(dets, sevens, tolerance)
        ensures exists k :: 0 <= k < |dets| && NearestSeven(dets[k], sevens, tolerance) == i
      {
        if i in Credited(prefix, sevens, tolerance) {
          var k :| 0 <= k < |prefix| && NearestSeven(prefix[k], sevens, tolerance) == i;
          assert dets[k] == prefix[k];
        } else {
          assert NearestSeven(dets[|dets| - 1], sevens, tolerance) == i;
        }
      }
    }
    RangeBound(Credited(dets, sevens, tolerance), |sevens|);
  }

  /** A detection whose nearest start is already credited earns nothing:
      the credited set does not change, whatever other starts lie within
      tolerance. */
  lemma UsedNearestEarnsNothing(dets: seq<real>, d: real, sevens: seq<real>, tolerance: real)
    requires NearestSeven(d, sevens, tolerance) in Credited(dets, sevens, tolerance)
    ensures Credited(dets + [d], sevens, tolerance) == Credited(dets, sevens, tolerance)
  {
    assert (dets + [d])[..|dets|] == dets;
  }

  /** A witness that an unused start within tolerance does not help: with
      starts at 1000 and 1300 ms, detections at 1100 and 1120 ms both pick
      1000, and the 1300 start stays unmatched. */
  lemma UsedNearestIsFalsePositive()
    ensures Credited([1100.0, 1120.0], [1000.0, 1300.0], 600.0) == {0}
  {
    var sevens := [1000.0, 1300.0];
    assert Scan(1100.0, sevens, 600.0, 1) == (0, 100.0);
    assert Scan(1100.0, sevens, 600.0, 2) == (0, 100.0);
    assert Scan(1120.0, sevens, 600.0, 1) == (0, 120.0);
    assert Scan(1120.0, sevens, 600.0, 2) == (0, 120.0);
    assert [1100.0, 1120.0][..1] == [1100.0];
    assert [1100.0, 1120.0][..1][..0] == [];
  }

  // ---------------------------------------------------------------- rates

  /** `num / den if den > 0 else 0`. */
  function Ratio(num: int, den: int): real
  {
    if den > 0 then num as real / den as real else 0.0
  }

  lemma RatioInUnit(num: int, den: int)
    requires 0 <= num <= den
    ensures 0.0 <= Ratio(num, den) <= 1.0
  {
    if den > 0 {
      assert num as real <= den as real;
    }
  }

  /** `2 * (prec * rec) / (prec + rec) if prec + rec > 0 else 0`. */
  function F1(prec: real, rec: real): real
  {
    if prec + rec > 0.0 then 2.0 * (prec * rec) / (prec + rec) else 0.0
  }

  /** A product of non-negative reals is non-negative. */
  lemma MulNonNegative(a: real, b: real)
    requires 0.0 <= a && 0.0 <= b
    ensures 0.0 <= a * b
  {
  }

  /** Multiplying by a non-negative factor keeps order. */
  lemma MulMonotone(a: real, b: real, c: real)
    requires 0.0 <= a && b <= c
    ensures a * b <= a * c
  {
    MulNonNegative(a, c - b);
    assert a * (c - b) == a * c - a * b;
  }

  /** The product of two values in [0, 1] lies in [0, 1] and is at most
      either of them. */
  lemma ProductBounds(a: real, b: real)
    requires 0.0 <= a <= 1.0 && 0.0 <= b <= 1.0
    ensures 0.0 <= a * b <= a && a * b <= b
  {
    MulNonNegative(a, b);
    MulMonotone(a, b, 1.0);
    assert a * b <= a * 1.0;
    MulMonotone(b, a, 1.0);
    assert b * a <= b * 1.0;
  }

  /** Twice a value below both `a` and `b`, divided by `a + b`, lies in [0, 1]. */
  lemma HarmonicInUnit(x: real, a: real, b: real)
    requires 0.0 <= x && x <= a && x <= b && 0.0 < a + b
    ensures 0.0 <= 2.0 * x / (a + b) <= 1.0
  {
  }

  lemma F1InUnit(prec: real, rec: real)
    requires 0.0 <= prec <= 1.0 && 0.0 <= rec <= 1.0
    ensures 0.0 <= F1(prec, rec) <= 1.0
  {
    if prec + rec > 0.0 {
      var both := prec * rec;
      ProductBounds(prec, rec);
      assert 0.0 <= both <= prec && both <= rec;
      HarmonicInUnit(both, prec, rec);
    }
  }

  /** The report for given counts: every rate is 0 when its denominator is
      0, and accuracy, precision, recall and F1 all lie in [0, 1]. */
  function Scores(tp: nat, tn: nat, fp: nat, fn: nat): (r: Report)
    ensures r.tp == tp && r.tn == tn && r.fp == fp && r.fn == fn
    ensures tp + tn + fp + fn == 0 ==> r.acc == 0.0
    ensures tp + fp == 0 ==> r.prec == 0.0
    ensures tp + fn == 0 ==> r.rec == 0.0
    ensures r.prec + r.rec == 0.0 ==> r.f1 == 0.0
    ensures 0.0 <= r.acc <= 1.0 && 0.0 <= r.prec <= 1.0 && 0.0 <= r.rec <= 1.0 && 0.0 <= r.f1 <= 1.0
  {
    var prec := Ratio(tp, tp + fp);
    var rec := Ratio(tp, tp + fn);
    RatioInUnit(tp + tn, tp + tn + fp + fn);
    RatioInUnit(tp, tp + fp);
    RatioInUnit(tp, tp + fn);
    F1InUnit(prec, rec);
    Report(tp, tn, fp, fn, Ratio(tp + tn, tp + tn + fp + fn), prec, rec, F1(prec, rec))
  }

  // --------------------------------------------------------------- report

  /** `calculate_metrics` on parsed ground truth: TP counts the credited
      starts, so TP + FP is the number of detections and TP + FN the number
      of sevens, with FP and FN never negative; TN is `max(0, others - FP)`. */
  method CalculateMetrics(detections: seq<real>, groundTruth: seq<Label>, tolerance: real) returns (r: Report)
    ensures r.tp == |Credited(detections, SevenStarts(groundTruth), tolerance)|
    ensures r.tp + r.fp == |detections| && r.tp + r.fn == |SevenStarts(groundTruth)|
    ensures 0 <= r.tp && 0 <= r.fp && 0 <= r.fn && 0 <= r.tn
    ensures r.tn == if CountOthers(groundTruth) > r.fp then CountOthers(groundTruth) - r.fp else 0
    ensures r == Scores(r.tp, r.tn, r.fp, r.fn)
  {
    var sevens := SevenStarts(groundTruth);
    var others := CountOthers(groundTruth);
    var used: set<int> := {};
    var tp := 0;
    for k := 0 to |detections|
      invariant used == Credited(detections[..k], sevens, tolerance) && tp == |used|
    {
      assert detections[..k + 1][..k] == detections[..k];
      var best := Nearest(detections[k], sevens, tolerance);
      if best != -1 && best !in used {
        used := used + {best};
        tp := tp + 1;
      }
    }
    assert detections[..|detections|] == detections;
    CreditedBounds(detections, sevens, tolerance);
    var fp := |detections| - tp;
    var fn := |sevens| - tp;
    var tn := if others - fp > 0 then others - fp else 0;
    r := Scores(tp, tn, fp, fn);
  }
}
