/** Sequence helpers shared by the browser worker and the offline streaming harness. */
module Sequences {

  /** The last `n` elements of `s` (all of `s` when it is shorter): what a
      buffer, history or deque of capacity `n` holds after `s` was written
      through it, oldest first. */
  function LastN<T>(s: seq<T>, n: nat): (r: seq<T>)
    ensures |r| == if |s| <= n then |s| else n
  {
    if |s| <= n then s else s[|s| - n..]
  }

  /** Writing `s` and then `t` through a window of capacity `n` leaves the same
      contents as writing `s + t` in one go: how the input is split into
      chunks does not matter. */
  lemma LastNAppend<T>(s: seq<T>, t: seq<T>, n: nat)
    ensures LastN(LastN(s, n) + t, n) == LastN(s + t, n)
  {
    if |s| > n && t != [] {
      var st := s + t;
      var u := s[|s| - n..];
      var ut := u + t;
      calc {
        LastN(ut, n);
        ut[|t|..];
        { assert ut == st[|s| - n..]; }
        st[|s| - n..][|t|..];
        st[|s| - n + |t|..];
        LastN(st, n);
      }
    }
  }

  /** `n` samples of silence. */
  function Zeros(n: nat): (r: seq<real>)
    ensures |r| == n && forall k :: 0 <= k < n ==> r[k] == 0.0
  {
    seq(n, _ => 0.0)
  }

  /** Left-to-right sum, as an accumulating loop computes it. */
  function Sum(s: seq<real>): real
  {
    if s == [] then 0.0 else Sum(s[..|s| - 1]) + s[|s| - 1]
  }

  /** Summing from the front gives the same value as summing from the back. */
  lemma {:induction false} SumCons(s: seq<real>)
    requires s != []
    ensures Sum(s) == s[0] + Sum(s[1..])
  {
    if |s| > 1 {
      SumCons(s[..|s| - 1]);
      assert s[..|s| - 1][1..] == s[1..][..|s[1..]| - 1];
    }
  }

  /** A sum of `|s|` values that each lie in `[lo, hi]` lies in `[lo * |s|, hi * |s|]`. */
  lemma {:induction false} SumBounds(s: seq<real>, lo: real, hi: real)
    requires forall k :: 0 <= k < |s| ==> lo <= s[k] <= hi
    ensures lo * |s| as real <= Sum(s) <= hi * |s| as real
  {
    if s != [] {
      SumBounds(s[..|s| - 1], lo, hi);
    }
  }

  /** A sum of non-negative values is non-negative. */
  lemma {:induction false} SumNonNegative(s: seq<real>)
    requires forall k :: 0 <= k < |s| ==> 0.0 <= s[k]
    ensures 0.0 <= Sum(s)
  {
    if s != [] {
      SumNonNegative(s[..|s| - 1]);
    }
  }

  /** Arithmetic mean of a non-empty sequence. */
  function Mean(s: seq<real>): real
    requires s != []
  {
    Sum(s) / |s| as real
  }

  /** Dividing both sides of `x * n <= y * n` by a positive `n`. */
  lemma RealCancel(x: real, y: real, n: real)
    requires 0.0 < n && x * n <= y * n
    ensures x <= y
  {
  }

  /** The mean of values in `[lo, hi]` is in `[lo, hi]`. */
  lemma MeanBounds(s: seq<real>, lo: real, hi: real)
    requires s != []
    requires forall k :: 0 <= k < |s| ==> lo <= s[k] <= hi
    ensures lo <= Mean(s) <= hi
  {
    SumBounds(s, lo, hi);
    var n := |s| as real;
    var m := Mean(s);
    assert m * n == Sum(s);
    RealCancel(lo, m, n);
    RealCancel(m, hi, n);
  }
}
