/**
 The FEM inspection tool: a base-2 histogram of the eigenfrequencies, and
 the reduction of a model to the modes of low frequency or large Hankel
 singular value.
 */
module FemInspect {
  import opened Common

  function Pow2(n: nat): (p: nat)
    ensures p >= 1
  {
    if n == 0 then 1 else 2 * Pow2(n - 1)
  }

  lemma {:induction false} Pow2Monotone(m: nat, n: nat)
    requires m <= n
    ensures Pow2(m) <= Pow2(n)
    decreases n
  {
    if m < n {
      Pow2Monotone(m, n - 1);
    }
  }

  /** `2^29`: the last lower bound the 32-bit shifts reach without
      overflowing the upper bound of the next bin. */
  const Limit: nat := 0x2000_0000

  lemma LimitIsPow2()
    ensures Pow2(29) == Limit
  {
    assert Pow2(8) == 0x100;
    assert Pow2(16) == 0x1_0000;
    assert Pow2(24) == 0x100_0000;
  }

  /** The bounds of bin `i`: `[0, 2)` for the first bin and
      `[2^i, 2^(i+1))` for the others. */
  function Lower(i: nat): nat {
    if i == 0 then 0 else Pow2(i)
  }

  function Upper(i: nat): nat {
    Pow2(i + 1)
  }

  /** The bins tile the frequencies from zero up, without gaps or overlaps. */
  lemma BinsTile(i: nat)
    ensures Lower(0) == 0 && Lower(i) < Upper(i) && Upper(i) == Lower(i + 1)
  {
  }

  /** The number of frequencies in `[lo, hi)`. */
  function CountIn(nu: seq<real>, lo: real, hi: real): (c: nat)
    ensures c <= |nu|
  {
    if |nu| == 0 then 0
    else (if lo <= nu[0] < hi then 1 else 0) + CountIn(nu[1..], lo, hi)
  }

  /** Counting over two adjacent ranges is counting over their union. */
  lemma {:induction false} CountInSplit(nu: seq<real>, a: real, b: real, c: real)
    requires a <= b <= c
    ensures CountIn(nu, a, b) + CountIn(nu, b, c) == CountIn(nu, a, c)
  {
    if |nu| > 0 {
      CountInSplit(nu[1..], a, b, c);
    }
  }

  /** Bin `i` onwards, until the first bin whose lower bound exceeds
      `maxNu`. The bounds are 32-bit integers: past `2^29` the shift
      overflows, so `maxNu` must stay below it for the bins to end. */
  function HistogramFrom(nu: seq<real>, maxNu: real, i: nat): (h: seq<nat>)
    requires maxNu < Limit as real
    ensures forall j :: i <= j < i + |h| ==> Lower(j) as real <= maxNu
    ensures Lower(i + |h|) as real > maxNu
    ensures forall k :: 0 <= k < |h| ==> h[k] == CountIn(nu, Lower(i + k) as real, Upper(i + k) as real)
    decreases 29 - i
  {
    if Lower(i) as real > maxNu then []
    else
      BelowLimit(i, maxNu);
      [CountIn(nu, Lower(i) as real, Upper(i) as real)] + HistogramFrom(nu, maxNu, i + 1)
  }

  /** A bin that starts at or below `maxNu` is one of the first 29. */
  lemma BelowLimit(i: nat, maxNu: real)
    requires maxNu < Limit as real && Lower(i) as real <= maxNu
    ensures i < 29
  {
    if i >= 29 {
      LimitIsPow2();
      Pow2Monotone(29, i);
    }
  }

  /** `frequency_base2_histogram`: the count of frequencies in each bin, up
      to the first bin that starts above `maxNu`. */
  function Histogram(nu: seq<real>, maxNu: real): (h: seq<nat>)
    requires maxNu < Limit as real
    ensures forall k :: 0 <= k < |h| ==> Lower(k) as real <= maxNu
    ensures Lower(|h|) as real > maxNu
    ensures forall k :: 0 <= k < |h| ==> h[k] == CountIn(nu, Lower(k) as real, Upper(k) as real)
  {
    HistogramFrom(nu, maxNu, 0)
  }

  /** Whatever `maxNu`, the histogram holds the bins before the first one
      that starts above it, and no other. */
  lemma HistogramLength(nu: seq<real>, maxNu: real, n: nat)
    requires maxNu < Limit as real
    requires forall k :: 0 <= k < n ==> Lower(k) as real <= maxNu
    requires Lower(n) as real > maxNu
    ensures |Histogram(nu, maxNu)| == n
  {
    var h := Histogram(nu, maxNu);
  }

  /** A negative `maxNu` gives no bin; one below two, the single bin `[0, 2)`. */
  lemma HistogramSmall(nu: seq<real>, maxNu: real)
    requires maxNu < 2.0
    ensures maxNu < 0.0 ==> Histogram(nu, maxNu) == []
    ensures 0.0 <= maxNu ==> Histogram(nu, maxNu) == [CountIn(nu, 0.0, 2.0)]
  {
    if maxNu < 0.0 {
      HistogramLength(nu, maxNu, 0);
    } else {
      HistogramLength(nu, maxNu, 1);
    }
  }

  function SumNat(s: seq<nat>): nat {
    if |s| == 0 then 0 else SumNat(s[..|s| - 1]) + s[|s| - 1]
  }

  /** The first `n` bins together count the frequencies in `[0, 2^n)`. */
  lemma {:induction false} BinsTotal(nu: seq<real>, h: seq<nat>, n: nat)
    requires 0 < n <= |h|
    requires forall k :: 0 <= k < |h| ==> h[k] == CountIn(nu, Lower(k) as real, Upper(k) as real)
    ensures SumNat(h[..n]) == CountIn(nu, 0.0, Pow2(n) as real)
  {
    if n > 1 {
      BinsTotal(nu, h, n - 1);
      assert h[..n][..n - 1] == h[..n - 1];
      Pow2Monotone(n - 1, n);
      CountInSplit(nu, 0.0, Pow2(n - 1) as real, Pow2(n) as real);
    }
  }

  /** Every frequency from zero to `maxNu` is in exactly one bin: the
      counts add up to the frequencies in `[0, 2^|h|)`, a range that holds
      `[0, maxNu]`. */
  lemma HistogramTotal(nu: seq<real>, maxNu: real)
    requires 0.0 <= maxNu < Limit as real
    ensures var h := Histogram(nu, maxNu);
      |h| > 0 && maxNu < Pow2(|h|) as real &&
      SumNat(h) == CountIn(nu, 0.0, Pow2(|h|) as real)
  {
    var h := Histogram(nu, maxNu);
    assert Lower(0) as real <= maxNu;
    BinsTotal(nu, h, |h|);
    assert h[..|h|] == h;
  }

  /** A mode is a pair of eigenfrequency and Hankel singular value. */
  function Low(lb: real): ((real, real)) -> bool {
    (m: (real, real)) => m.0 <= lb
  }

  function High(lb: real, cut: real): ((real, real)) -> bool {
    (m: (real, real)) => m.0 > lb && m.1 > cut
  }

  /** The filter of `model_reduction`: the modes up to the lower bound
      (zero when unset), then those above it whose Hankel singular value
      exceeds `threshold` times the largest. */
  function Reduce(nuHsv: seq<(real, real)>, lowerBound: Option<real>, maxHsv: real, threshold: real): (r: seq<(real, real)>)
    ensures forall m :: m in r <==>
      m in nuHsv && (m.0 <= lowerBound.UnwrapOr(0.0) || m.1 > maxHsv * threshold)
    ensures |r| <= |nuHsv|
  {
    var lb := lowerBound.UnwrapOr(0.0);
    DisjointFilters(nuHsv, Low(lb), High(lb, maxHsv * threshold));
    Filter(nuHsv, Low(lb)) + Filter(nuHsv, High(lb, maxHsv * threshold))
  }

  /** Two filters that never keep the same entry keep no more than there
      is between them. */
  lemma {:induction false} DisjointFilters<T(!new)>(xs: seq<T>, p: T -> bool, q: T -> bool)
    requires forall x :: !(p(x) && q(x))
    ensures |Filter(xs, p)| + |Filter(xs, q)| <= |xs|
  {
    if |xs| > 0 {
      DisjointFilters(xs[1..], p, q);
    }
  }

  /** The reduced model keeps its low-frequency modes first, in order: the
      modes up to the lower bound form its head. */
  lemma ReduceKeepsLowModesFirst(nuHsv: seq<(real, real)>, lowerBound: Option<real>, maxHsv: real, threshold: real)
    ensures var lb := lowerBound.UnwrapOr(0.0);
      var r := Reduce(nuHsv, lowerBound, maxHsv, threshold);
      var low := Filter(nuHsv, Low(lb));
      r[..|low|] == low && forall k :: |low| <= k < |r| ==> r[k].0 > lb
  {
  }

  /** The frequencies of a run of modes, whose histogram
      `model_reduction` records. */
  function Frequencies(nuHsv: seq<(real, real)>): (nu: seq<real>)
    ensures |nu| == |nuHsv| && forall k :: 0 <= k < |nu| ==> nu[k] == nuHsv[k].0
  {
    seq(|nuHsv|, k requires 0 <= k < |nuHsv| => nuHsv[k].0)
  }
}
