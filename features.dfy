/** The index structure of the worker's feature extractor (`DSP` in
    js/worker.js): framing of the 1-second window, the Hann multiplication,
    the filterbank and DCT projections, the (channel, frame) flat layout and
    the triangular filter fill. The numeric ingredients (Hann window, power
    spectrum, log-mel energies, DCT basis, bin edges) are taken as inputs. */
module Features {
  import opened Sequences

  const BufferLength := 16000
  const FrameLength := 400   // n_fft
  const HopLength := 160
  const NumFrames := 101
  const NumBins := 201       // n_fft / 2 + 1
  const NumCepstra := 40
  const NumMelBands := 64

  // ---------------------------------------------------------------- framing

  /** `TypedArray.prototype.slice(begin, end)` for non-negative bounds: both
      bounds are clamped to the length, and a reversed range is empty. */
  function Slice<T>(s: seq<T>, begin: nat, end: nat): seq<T>
  {
    var b := if begin < |s| then begin else |s|;
    var e := if end < |s| then end else |s|;
    if b <= e then s[b..e] else []
  }

  /** Frame `i` as the worker takes it: sliced straight from the unpadded window. */
  function Frame(window: seq<real>, i: nat): seq<real>
  {
    Slice(window, i * HopLength, i * HopLength + FrameLength)
  }

  /** Frame `i` starts at sample `160 * i`; it holds 400 samples unless the
      window ends first, and then it stops at the last sample of the window. */
  lemma FrameShape(window: seq<real>, i: nat)
    requires |window| == BufferLength && i < NumFrames
    ensures |Frame(window, i)| == if i * HopLength + FrameLength <= BufferLength then FrameLength
                                  else BufferLength - i * HopLength
    ensures forall j :: 0 <= j < |Frame(window, i)| ==> Frame(window, i)[j] == window[i * HopLength + j]
  {
  }

  /** As written, frames 0 to 97 are full but 98, 99 and 100 are cut short
      at sample 16000 (320, 160 and 0 samples), since the padded copy of the
      window is never read. */
  lemma TailFramesShort(window: seq<real>)
    requires |window| == BufferLength
    ensures forall i :: 0 <= i <= 97 ==> |Frame(window, i)| == FrameLength
    ensures |Frame(window, 98)| == 320 && |Frame(window, 99)| == 160 && Frame(window, 100) == []
  {
    forall i | 0 <= i <= 97
      ensures |Frame(window, i)| == FrameLength
    {
      FrameShape(window, i);
    }
  }

  /** `paddedBuffer`: 200 zeros, the window, 200 zeros (16400 samples). */
  function Padded(window: seq<real>): (r: seq<real>)
    ensures |r| == |window| + 2 * (FrameLength / 2)
    ensures forall x :: 0 <= x < |r| ==>
      r[x] == if FrameLength / 2 <= x < |window| + FrameLength / 2 then window[x - FrameLength / 2] else 0.0
  {
    Zeros(FrameLength / 2) + window + Zeros(FrameLength / 2)
  }

  /** Frame `i` taken from the padded copy, as the allocation of
      `paddedBuffer` evidently intends. */
  function PaddedFrame(window: seq<real>, i: nat): seq<real>
  {
    Slice(Padded(window), i * HopLength, i * HopLength + FrameLength)
  }

  /** Taken from the padded copy, all 101 frames are full: frame `i` is
      centred on sample `160 * i` and reads zeros where it reaches past
      either end of the window. */
  lemma PaddedFramesFull(window: seq<real>, i: nat)
    requires |window| == BufferLength && i < NumFrames
    ensures |PaddedFrame(window, i)| == FrameLength
    ensures forall j :: 0 <= j < FrameLength ==>
      PaddedFrame(window, i)[j] ==
        if FrameLength / 2 <= i * HopLength + j < BufferLength + FrameLength / 2
        then window[i * HopLength + j - FrameLength / 2] else 0.0
  {
    var p := Padded(window);
    assert |p| == 16400;
  }

  /** `frame[j] *= hann[j]` for `j < 400` on a typed array: positions past the
      end of a short frame are silently ignored, positions past 400 are untouched. */
  method ApplyWindow(frame: array<real>, hann: seq<real>)
    requires |hann| == FrameLength
    modifies frame
    ensures forall j :: 0 <= j < frame.Length ==>
      frame[j] == if j < FrameLength then old(frame[j]) * hann[j] else old(frame[j])
  {
    for j := 0 to FrameLength
      invariant forall i :: 0 <= i < frame.Length ==>
        frame[i] == if i < j then old(frame[i]) * hann[i] else old(frame[i])
    {
      if j < frame.Length {
        frame[j] := frame[j] * hann[j];
      }
    }
  }

  // ---------------------------------------------------------- projections

  /** `a[0] * b[0] + ... + a[n-1] * b[n-1]`, summed left to right. */
  function Dot(a: seq<real>, b: seq<real>, n: nat): real
    requires n <= |a| && n <= |b|
  {
    if n == 0 then 0.0 else Dot(a, b, n - 1) + a[n - 1] * b[n - 1]
  }

  /** A band's energy is never negative when the power spectrum (a sum of
      squares per bin) and the filter weights (in `[0, 1]`) are not, so the
      `10 * log10(v + 1e-10)` compression that follows is always defined. */
  lemma {:induction false} BandEnergyNonNegative(power: seq<real>, filter: seq<real>, n: nat)
    requires n <= |power| && n <= |filter|
    requires forall k :: 0 <= k < n ==> 0.0 <= power[k] && 0.0 <= filter[k]
    ensures Dot(power, filter, n) >= 0.0
  {
    if n > 0 {
      BandEnergyNonNegative(power, filter, n - 1);
      var x, y := power[n - 1], filter[n - 1];
      assert 0.0 <= x * y;
    }
  }

  /** A spectrum with no energy maps to zero in every band. */
  lemma {:induction false} DotZero(a: seq<real>, b: seq<real>, n: nat)
    requires n <= |a| && n <= |b|
    requires forall k :: 0 <= k < n ==> a[k] == 0.0
    ensures Dot(a, b, n) == 0.0
  {
    if n > 0 {
      DotZero(a, b, n - 1);
    }
  }

  /** The accumulating loop `sum += a[m] * b[m]` over the first `n` entries,
      proved against `Dot`. */
  method DotProduct(a: seq<real>, b: seq<real>, n: nat) returns (sum: real)
    requires n <= |a| && n <= |b|
    ensures sum == Dot(a, b, n)
  {
    sum := 0.0;
    for m := 0 to n
      invariant sum == Dot(a, b, m)
    {
      sum := sum + a[m] * b[m];
    }
  }

  /** The energy of each band of one frame: the power spectrum weighted by
      that band's filter, over the bins the spectrum has (a short tail frame
      has fewer than 201). */
  method ProjectBands(power: seq<real>, bank: seq<seq<real>>) returns (energy: array<real>)
    requires forall m :: 0 <= m < |bank| ==> |power| <= |bank[m]|
    ensures energy.Length == |bank|
    ensures forall m :: 0 <= m < |bank| ==> energy[m] == Dot(power, bank[m], |power|)
  {
    energy := new real[|bank|];
    for m := 0 to |bank|
      invariant forall i :: 0 <= i < m ==> energy[i] == Dot(power, bank[i], |power|)
    {
      energy[m] := DotProduct(power, bank[m], |power|);
    }
  }

  // ---------------------------------------------------------- flat layout

  /** Position of (channel, frame) in a flat (channel, time) row-major buffer. */
  function FlatIndex(channel: nat, frame: nat): nat
  {
    channel * NumFrames + frame
  }

  /** Every position of a flat buffer of `channels * 101` values is the
      position of exactly one (channel, frame) pair. */
  lemma FlatIndexBijective(channels: nat, idx: nat)
    requires idx < channels * NumFrames
    ensures idx / NumFrames < channels && idx % NumFrames < NumFrames
    ensures FlatIndex(idx / NumFrames, idx % NumFrames) == idx
    ensures forall k: nat, t: nat :: t < NumFrames && FlatIndex(k, t) == idx ==>
      k == idx / NumFrames && t == idx % NumFrames
  {
  }

  /** The cepstral matrix: coefficient `k` of frame `t` is row `k` of the DCT
      basis applied to that frame's 40 log-mel energies, stored at `k * 101 + t`. */
  method ProjectCepstra(logMel40: seq<seq<real>>, dct: seq<seq<real>>) returns (mfcc: array<real>)
    requires |logMel40| == NumFrames && forall t :: 0 <= t < NumFrames ==> |logMel40[t]| == NumCepstra
    requires |dct| == NumCepstra && forall k :: 0 <= k < NumCepstra ==> |dct[k]| == NumCepstra
    ensures mfcc.Length == NumCepstra * NumFrames
    ensures forall k, t :: 0 <= k < NumCepstra && 0 <= t < NumFrames ==>
      mfcc[FlatIndex(k, t)] == Dot(dct[k], logMel40[t], NumCepstra)
  {
    mfcc := new real[NumCepstra * NumFrames];
    for t := 0 to NumFrames
      invariant forall k, u :: 0 <= k < NumCepstra && 0 <= u < t ==>
        mfcc[FlatIndex(k, u)] == Dot(dct[k], logMel40[u], NumCepstra)
    {
      WriteCepstrum(mfcc, t, logMel40[t], dct);
    }
  }

  /** The cepstral coefficients of frame `t`, written into column `t` of the
      flat matrix; every other column is left as it was. */
  method WriteCepstrum(mfcc: array<real>, t: nat, logMel: seq<real>, dct: seq<seq<real>>)
    requires mfcc.Length == NumCepstra * NumFrames && t < NumFrames && |logMel| == NumCepstra
    requires |dct| == NumCepstra && forall k :: 0 <= k < NumCepstra ==> |dct[k]| == NumCepstra
    modifies mfcc
    ensures forall k :: 0 <= k < NumCepstra ==> mfcc[FlatIndex(k, t)] == Dot(dct[k], logMel, NumCepstra)
    ensures forall c, u :: 0 <= c < NumCepstra && 0 <= u < NumFrames && u != t ==>
      mfcc[FlatIndex(c, u)] == old(mfcc[FlatIndex(c, u)])
  {
    for k := 0 to NumCepstra
      invariant forall c :: 0 <= c < k ==> mfcc[FlatIndex(c, t)] == Dot(dct[c], logMel, NumCepstra)
      invariant forall c, u :: 0 <= c < NumCepstra && 0 <= u < NumFrames && u != t ==>
        mfcc[FlatIndex(c, u)] == old(mfcc[FlatIndex(c, u)])
    {
      mfcc[FlatIndex(k, t)] := DotProduct(dct[k], logMel, NumCepstra);
    }
  }

  /** The mel-energy matrix: band `k` of frame `t` is stored at `k * 101 + t`,
      so every position holds the band and frame it encodes. */
  method FlattenMelspec(logMel64: seq<seq<real>>) returns (melspec: array<real>)
    requires |logMel64| == NumFrames && forall t :: 0 <= t < NumFrames ==> |logMel64[t]| == NumMelBands
    ensures melspec.Length == NumMelBands * NumFrames
    ensures forall k, t :: 0 <= k < NumMelBands && 0 <= t < NumFrames ==>
      melspec[FlatIndex(k, t)] == logMel64[t][k]
    ensures forall idx :: 0 <= idx < melspec.Length ==>
      melspec[idx] == logMel64[idx % NumFrames][idx / NumFrames]
  {
    melspec := new real[NumMelBands * NumFrames];
    for t := 0 to NumFrames
      invariant forall k, u :: 0 <= k < NumMelBands && 0 <= u < t ==> melspec[FlatIndex(k, u)] == logMel64[u][k]
    {
      for k := 0 to NumMelBands
        invariant forall c, u :: 0 <= c < NumMelBands && 0 <= u < t ==> melspec[FlatIndex(c, u)] == logMel64[u][c]
        invariant forall c :: 0 <= c < k ==> melspec[FlatIndex(c, t)] == logMel64[t][c]
      {
        melspec[FlatIndex(k, t)] := logMel64[t][k];
      }
    }
    forall idx | 0 <= idx < melspec.Length
      ensures melspec[idx] == logMel64[idx % NumFrames][idx / NumFrames]
    {
      FlatIndexBijective(NumMelBands, idx);
    }
  }

  // ---------------------------------------------------------- filterbank

  /** The weight the worker's triangle fill leaves at bin `j` for the filter
      with integer edges `start`, `center`, `end`: rising over
      `[start, center)`, falling over `[center, end)`, zero elsewhere. */
  function TriangleWeight(start: int, center: int, end: int, j: int): real
  {
    if start <= j < center then Rise(start, center, j)
    else if center <= j < end then Fall(center, end, j)
    else 0.0
  }

  /** `(j - start) / (center - start)`: the rising edge's value at bin `j`. */
  function Rise(start: int, center: int, j: int): real
    requires start < center
  {
    (j - start) as real / (center - start) as real
  }

  /** `(end - j) / (end - center)`: the falling edge's value at bin `j`. */
  function Fall(center: int, end: int, j: int): real
    requires center < end
  {
    (end - j) as real / (end - center) as real
  }

  /** A triangle's weights lie in `[0, 1]`, vanish outside `[start, end)`, and
      reach 1 at the center bin whenever the falling edge is not empty. */
  lemma TriangleShape(start: int, center: int, end: int, j: int)
    requires start <= center <= end
    ensures 0.0 <= TriangleWeight(start, center, end, j) <= 1.0
    ensures (j < start || end <= j) ==> TriangleWeight(start, center, end, j) == 0.0
    ensures center < end ==> TriangleWeight(start, center, end, center) == 1.0
  {
    if start <= j < center {
      UnitFraction(j - start, center - start);
    } else if center <= j < end {
      UnitFraction(end - j, end - center);
    }
    if center < end {
      UnitFraction(end - center, end - center);
    }
  }

  /** `num / den` for integers `0 <= num <= den`, `den > 0`, lies in [0, 1]
      and is 1 when `num == den`. */
  lemma UnitFraction(num: int, den: int)
    requires 0 <= num <= den && 0 < den
    ensures 0.0 <= num as real / den as real <= 1.0
    ensures num == den ==> num as real / den as real == 1.0
  {
    assert num as real <= den as real;
  }

  /** Neighbouring filters of a bank cross-fade: on the falling edge of filter
      `i` (the rising edge of filter `i + 1`) their weights add up to 1. */
  lemma AdjacentTrianglesSumToOne(a: int, b: int, c: int, d: int, j: int)
    requires a <= b <= c <= d && b <= j < c
    ensures TriangleWeight(a, b, c, j) + TriangleWeight(b, c, d, j) == 1.0
  {
    var w := (c - b) as real;
    assert TriangleWeight(a, b, c, j) == Fall(b, c, j) == (c - j) as real / w;
    assert TriangleWeight(b, c, d, j) == Rise(b, c, j) == (j - b) as real / w;
  }

  /** One filter row of 201 bins filled as the worker fills it: the two loops
      over `[start, center)` and `[center, end)`, skipping any bin outside the row. */
  method TriangleFilter(start: int, center: int, end: int) returns (filter: array<real>)
    ensures filter.Length == NumBins
    ensures forall j :: 0 <= j < NumBins ==> filter[j] == TriangleWeight(start, center, end, j)
  {
    filter := new real[NumBins](_ => 0.0);
    var j := start;
    while j < center
      invariant start <= j && (start < center ==> j <= center)
      invariant forall i :: 0 <= i < NumBins ==>
        filter[i] == if start <= i < j && i < center then Rise(start, center, i) else 0.0
      decreases center - j
    {
      if 0 <= j < NumBins {
        filter[j] := Rise(start, center, j);
      }
      j := j + 1;
    }
    j := center;
    while j < end
      invariant center <= j && (center < end ==> j <= end)
      invariant forall i :: 0 <= i < NumBins ==>
        filter[i] == if start <= i < center then Rise(start, center, i)
                     else if center <= i < j && i < end then Fall(center, end, i)
                     else 0.0
      decreases end - j
    {
      if 0 <= j < NumBins {
        filter[j] := Fall(center, end, j);
      }
      j := j + 1;
    }
  }

  /** The bank of `nMels` filters; filter `i` takes its edges from bin points
      `i`, `i + 1` and `i + 2`, so consecutive filters share two edges. */
  method CreateMelFilterbank(binPoints: seq<int>, nMels: nat) returns (filters: seq<seq<real>>)
    requires |binPoints| == nMels + 2
    ensures |filters| == nMels
    ensures forall i :: 0 <= i < nMels ==> |filters[i]| == NumBins
    ensures forall i, j :: 0 <= i < nMels && 0 <= j < NumBins ==>
      filters[i][j] == TriangleWeight(binPoints[i], binPoints[i + 1], binPoints[i + 2], j)
  {
    filters := [];
    for i := 0 to nMels
      invariant |filters| == i
      invariant forall r :: 0 <= r < i ==> |filters[r]| == NumBins
      invariant forall r, j :: 0 <= r < i && 0 <= j < NumBins ==>
        filters[r][j] == TriangleWeight(binPoints[r], binPoints[r + 1], binPoints[r + 2], j)
    {
      var filter := TriangleFilter(binPoints[i], binPoints[i + 1], binPoints[i + 2]);
      filters := filters + [filter[..]];
    }
  }
}
