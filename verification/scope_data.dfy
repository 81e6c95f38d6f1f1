/**
 The data behind a scope's plots: a signal's staircase of points, a group
 of signals fed together, and an image's box-plot statistics (the
 quantiles of its masked pixels). Pixel colouring and textures belong to
 the GUI and are not modelled.
 */
module ScopeData {
  import opened Common
  import Sorting

  function Id(x: real): real {
    x
  }

  predicate Sorted(s: seq<real>) {
    Sorting.SortedBy(s, Id)
  }

  /** The fractional rank `p·(n+1)` of the `(n+1)p` quartile rule. */
  function Rank(p: real, n: nat): real {
    p * (n + 1) as real
  }

  /** `(p·(n+1)).floor() as usize`; `p` is one of 0.25, 0.5 and 0.75. */
  function Floor(p: real, n: nat): (k: int)
    ensures k as real <= Rank(p, n) < k as real + 1.0
  {
    Rank(p, n).Floor
  }

  /** The interpolation weight `p·(n+1) - k`. */
  function Weight(p: real, n: nat): (a: real)
    ensures 0.0 <= a < 1.0
  {
    Rank(p, n) - Floor(p, n) as real
  }

  /** `quartile` indexes `sample[k]` and `sample[k + 1]`: both must exist. */
  predicate QuartileDefined(p: real, n: nat) {
    0 <= Floor(p, n) && Floor(p, n) + 1 < n
  }

  /** `Quantiles::quartile` as written: the 1-based rank `k` of the rule is
      used as a 0-based index, so it interpolates between the `(k+1)`-th
      and `(k+2)`-th smallest values. */
  function QuartileAsWritten(p: real, sample: seq<real>): (q: real)
    requires QuartileDefined(p, |sample|)
    ensures var k := Floor(p, |sample|);
      sample[k] <= sample[k + 1] ==> sample[k] <= q <= sample[k + 1]
  {
    var k := Floor(p, |sample|);
    assert sample[k] <= sample[k + 1] ==> sample[k] <= Interpolate(sample[k], sample[k + 1], Weight(p, |sample|)) <= sample[k + 1] by {
      if sample[k] <= sample[k + 1] {
        InterpolateWithin(sample[k], sample[k + 1], Weight(p, |sample|));
      }
    }
    Interpolate(sample[k], sample[k + 1], Weight(p, |sample|))
  }

  /** The `(n+1)p` rule proper: the `k`-th and `(k+1)`-th smallest values,
      counting from one. */
  predicate RuleDefined(p: real, n: nat) {
    1 <= Floor(p, n) < n
  }

  function Quartile(p: real, sample: seq<real>): (q: real)
    requires RuleDefined(p, |sample|)
    ensures var k := Floor(p, |sample|);
      sample[k - 1] <= sample[k] ==> sample[k - 1] <= q <= sample[k]
  {
    var k := Floor(p, |sample|);
    assert sample[k - 1] <= sample[k] ==> sample[k - 1] <= Interpolate(sample[k - 1], sample[k], Weight(p, |sample|)) <= sample[k] by {
      if sample[k - 1] <= sample[k] {
        InterpolateWithin(sample[k - 1], sample[k], Weight(p, |sample|));
      }
    }
    Interpolate(sample[k - 1], sample[k], Weight(p, |sample|))
  }

  lemma Product(x: real, y: real)
    requires 0.0 <= x && 0.0 <= y
    ensures 0.0 <= x * y
  {
  }

  /** The point a fraction `a` of the way from `lo` to `hi`. */
  function Interpolate(lo: real, hi: real, a: real): real {
    lo + a * (hi - lo)
  }

  /** An interpolated point lies between its ends. */
  lemma InterpolateWithin(lo: real, hi: real, a: real)
    requires lo <= hi && 0.0 <= a <= 1.0
    ensures lo <= Interpolate(lo, hi, a) <= hi
  {
    Product(a, hi - lo);
    Product(1.0 - a, hi - lo);
    assert (1.0 - a) * (hi - lo) == (hi - lo) - a * (hi - lo);
  }

  /** A larger weight gives a larger point. */
  lemma InterpolateMonotone(lo: real, hi: real, a: real, b: real)
    requires lo <= hi && 0.0 <= a <= b <= 1.0
    ensures Interpolate(lo, hi, a) <= Interpolate(lo, hi, b)
  {
    Product(b - a, hi - lo);
    assert (b - a) * (hi - lo) == b * (hi - lo) - a * (hi - lo);
  }

  /** The rank, and so the index, never decreases with `p`. */
  lemma FloorMonotone(p1: real, p2: real, n: nat)
    requires p1 <= p2
    ensures Floor(p1, n) <= Floor(p2, n)
    ensures Floor(p1, n) == Floor(p2, n) ==> Weight(p1, n) <= Weight(p2, n)
  {
    assert Rank(p2, n) - Rank(p1, n) == (p2 - p1) * (n + 1) as real;
    Product(p2 - p1, (n + 1) as real);
  }

  /** Quantiles of a sorted sample lie within it, in the order of `p`. */
  lemma QuartileOrdered(p1: real, p2: real, s: seq<real>)
    requires Sorted(s) && p1 <= p2
    requires RuleDefined(p1, |s|) && RuleDefined(p2, |s|)
    ensures s[0] <= Quartile(p1, s) <= Quartile(p2, s) <= s[|s| - 1]
  {
    var n := |s|;
    var k1, k2 := Floor(p1, n), Floor(p2, n);
    FloorMonotone(p1, p2, n);
    assert Id(s[k1 - 1]) <= Id(s[k1]) && Id(s[k2 - 1]) <= Id(s[k2]);
    assert Id(s[0]) <= Id(s[k1 - 1]) && Id(s[k2]) <= Id(s[n - 1]);
    InterpolateWithin(s[k1 - 1], s[k1], Weight(p1, n));
    InterpolateWithin(s[k2 - 1], s[k2], Weight(p2, n));
    if k1 == k2 {
      InterpolateMonotone(s[k1 - 1], s[k1], Weight(p1, n), Weight(p2, n));
    } else {
      assert Id(s[k1]) <= Id(s[k2 - 1]);
    }
  }

  /** The as-written quartile of an odd sample of `2m + 1` values: the median
      comes out as the `(m+2)`-th smallest value, one above the middle. */
  lemma MedianAsWritten(s: seq<real>, m: nat)
    requires |s| == 2 * m + 1 && QuartileDefined(0.5, |s|)
    ensures QuartileAsWritten(0.5, s) == s[m + 1]
  {
    assert Rank(0.5, |s|) == (m + 1) as real;
  }

  /** The rule proper gives the middle value of an odd sample. */
  lemma MedianOfOdd(s: seq<real>, m: nat)
    requires |s| == 2 * m + 1 && RuleDefined(0.5, |s|)
    ensures Quartile(0.5, s) == s[m]
  {
    assert Rank(0.5, |s|) == (m + 1) as real;
  }

  /** The sample one to nine: the median is five, the code reports six. */
  lemma MedianOfNine()
    ensures QuartileAsWritten(0.5, [1.0, 2.0, 3.0, 4.0, 5.0, 6.0, 7.0, 8.0, 9.0]) == 6.0
    ensures Quartile(0.5, [1.0, 2.0, 3.0, 4.0, 5.0, 6.0, 7.0, 8.0, 9.0]) == 5.0
  {
    var s := [1.0, 2.0, 3.0, 4.0, 5.0, 6.0, 7.0, 8.0, 9.0];
    assert Rank(0.5, |s|) == 5.0;
    MedianAsWritten(s, 4);
    MedianOfOdd(s, 4);
  }

  /** The upper quartile, the last index needed, exists in the code as
      written exactly when the sample holds at least eight values; the
      lower quartile and the median then exist too. */
  lemma AsWrittenNeedsEight(n: nat)
    ensures QuartileDefined(0.75, n) <==> n >= 8
    ensures n >= 8 ==> QuartileDefined(0.25, n) && QuartileDefined(0.5, n)
  {
  }

  /** The rule proper needs four values. */
  lemma RuleNeedsFour(n: nat)
    ensures RuleDefined(0.25, n) && RuleDefined(0.5, n) && RuleDefined(0.75, n) <==> n >= 4
  {
  }

  /** The box-plot statistics of `Quantiles`. */
  datatype Quantiles = Quantiles(
    minimum: real,
    lowerWhisker: real,
    quartile1: real,
    median: real,
    quartile3: real,
    upperWhisker: real,
    maximum: real)

  /** The statistics of a sorted sample given its three quartiles: the
      whiskers reach 1.5 interquartile ranges out, clamped to the sample. */
  function Statistics(sample: seq<real>, q1: real, q2: real, q3: real): (r: Quantiles)
    requires |sample| > 0
    ensures r.minimum == sample[0] && r.maximum == sample[|sample| - 1]
    ensures r.quartile1 == q1 && r.median == q2 && r.quartile3 == q3
    ensures r.lowerWhisker == if q1 - 1.5 * (q3 - q1) < sample[0] then sample[0] else q1 - 1.5 * (q3 - q1)
    ensures r.upperWhisker == if sample[|sample| - 1] < q3 + 1.5 * (q3 - q1) then sample[|sample| - 1] else q3 + 1.5 * (q3 - q1)
    ensures Whiskers(r) && BoxPlot(r, sample, q1, q2, q3)
  {
    var minimum := sample[0];
    var maximum := sample[|sample| - 1];
    var iqr := q3 - q1;
    var lower := q1 - 1.5 * iqr;
    var upper := q3 + 1.5 * iqr;
    Quantiles(
      minimum,
      if minimum > lower then minimum else lower,
      q1, q2, q3,
      if maximum < upper then maximum else upper,
      maximum)
  }

  /** `Quantiles::new` as written: the extremes of the sorted data, its
      quartiles by the rule as written, and the whiskers. */
  function NewAsWritten(data: seq<real>): (r: Quantiles)
    requires |data| >= 8
    ensures var s := Sorting.SortBy(data, Id);
      && AsWrittenNeedsEightHolds(|s|)
      && BoxPlot(r, s, QuartileAsWritten(0.25, s), QuartileAsWritten(0.5, s), QuartileAsWritten(0.75, s))
  {
    var sample := Sorting.SortBy(data, Id);
    EightSuffice(|sample|);
    var q1, q2, q3 := QuartileAsWritten(0.25, sample), QuartileAsWritten(0.5, sample), QuartileAsWritten(0.75, sample);
    Statistics(sample, q1, q2, q3)
  }

  /** `r` is the box plot of the sorted sample `s` with quartiles `q1`,
      `q2`, `q3`: the extremes are the ends of `s`, and the whiskers are
      clamped to them. */
  predicate BoxPlot(r: Quantiles, s: seq<real>, q1: real, q2: real, q3: real) {
    && |s| > 0 && r.minimum == s[0] && r.maximum == s[|s| - 1]
    && r.quartile1 == q1 && r.median == q2 && r.quartile3 == q3
    && Whiskers(r)
  }

  /** Each whisker sits 1.5 interquartile ranges beyond its quartile, but
      no further out than the sample's extreme on that side. */
  predicate Whiskers(r: Quantiles) {
    var iqr := r.quartile3 - r.quartile1;
    && r.lowerWhisker == (if r.minimum > r.quartile1 - 1.5 * iqr then r.minimum else r.quartile1 - 1.5 * iqr)
    && r.upperWhisker == (if r.maximum < r.quartile3 + 1.5 * iqr then r.maximum else r.quartile3 + 1.5 * iqr)
  }

  lemma EightSuffice(n: nat)
    requires n >= 8
    ensures AsWrittenNeedsEightHolds(n)
  {
    AsWrittenNeedsEight(n);
  }

  /** The three quartiles as written can be taken of `n` values. */
  predicate AsWrittenNeedsEightHolds(n: nat) {
    QuartileDefined(0.25, n) && QuartileDefined(0.5, n) && QuartileDefined(0.75, n)
  }

  /** The three quartiles of the rule proper can be taken of `n` values. */
  predicate RuleHolds(n: nat) {
    RuleDefined(0.25, n) && RuleDefined(0.5, n) && RuleDefined(0.75, n)
  }

  /** `Quantiles::new` with the quartile rule proper. */
  function New(data: seq<real>): (r: Quantiles)
    requires |data| >= 4
    ensures var s := Sorting.SortBy(data, Id);
      && RuleHolds(|s|)
      && BoxPlot(r, s, Quartile(0.25, s), Quartile(0.5, s), Quartile(0.75, s))
  {
    var sample := Sorting.SortBy(data, Id);
    RuleNeedsFour(|sample|);
    assert RuleHolds(|sample|);
    var q1, q2, q3 := Quartile(0.25, sample), Quartile(0.5, sample), Quartile(0.75, sample);
    Statistics(sample, q1, q2, q3)
  }

  /** Quartiles as written of a sorted sample also lie within it, in the
      order of `p`: the rule is shifted one value up, not out of order. */
  lemma QuartileAsWrittenOrdered(p1: real, p2: real, s: seq<real>)
    requires Sorted(s) && p1 <= p2
    requires QuartileDefined(p1, |s|) && QuartileDefined(p2, |s|)
    ensures s[0] <= QuartileAsWritten(p1, s) <= QuartileAsWritten(p2, s) <= s[|s| - 1]
  {
    var n := |s|;
    var k1, k2 := Floor(p1, n), Floor(p2, n);
    FloorMonotone(p1, p2, n);
    assert Id(s[k1]) <= Id(s[k1 + 1]) && Id(s[k2]) <= Id(s[k2 + 1]);
    assert Id(s[0]) <= Id(s[k1]) && Id(s[k2 + 1]) <= Id(s[n - 1]);
    if k1 == k2 {
      InterpolateMonotone(s[k1], s[k1 + 1], Weight(p1, n), Weight(p2, n));
    } else {
      assert Id(s[k1 + 1]) <= Id(s[k2]);
    }
  }

  /** The box plot as written is still in order and still bounded by the
      data's extremes: only which values the quartiles are is off. */
  lemma NewAsWrittenOrdered(data: seq<real>)
    requires |data| >= 8
    ensures Ordered(NewAsWritten(data))
    ensures forall k :: 0 <= k < |data| ==> NewAsWritten(data).minimum <= data[k] <= NewAsWritten(data).maximum
  {
    var s := Sorting.SortBy(data, Id);
    var r := NewAsWritten(data);
    assert AsWrittenNeedsEightHolds(|s|);
    QuartileAsWrittenOrdered(0.25, 0.5, s);
    QuartileAsWrittenOrdered(0.5, 0.75, s);
    assert 0.0 <= 1.5 * (r.quartile3 - r.quartile1);
    SortedExtremes(data);
  }

  /** On the pixels one to nine the box plot as written reports a median
      of six, the rule proper five. */
  lemma NewMedianOfNine(s: seq<real>)
    requires s == [1.0, 2.0, 3.0, 4.0, 5.0, 6.0, 7.0, 8.0, 9.0]
    ensures NewAsWritten(s).median == 6.0
    ensures New(s).median == 5.0
  {
    SortedNine(s);
    Sorting.SortSorted(s, Id);
    EightSuffice(|s|);
    RuleNeedsFour(|s|);
    assert NewAsWritten(s).median == QuartileAsWritten(0.5, s);
    assert New(s).median == Quartile(0.5, s);
    MedianOfNine();
  }

  lemma SortedNine(s: seq<real>)
    requires s == [1.0, 2.0, 3.0, 4.0, 5.0, 6.0, 7.0, 8.0, 9.0]
    ensures Sorted(s)
  {
    forall i, j | 0 <= i < j < |s|
      ensures Id(s[i]) <= Id(s[j])
    {
      assert s[i] == (i + 1) as real && s[j] == (j + 1) as real;
    }
  }


  /** The box plot is in order, from the smallest pixel to the largest, and
      its ends are the extremes of the data. */
  predicate Ordered(q: Quantiles) {
    q.minimum <= q.lowerWhisker <= q.quartile1 <= q.median
      <= q.quartile3 <= q.upperWhisker <= q.maximum
  }

  lemma NewOrdered(data: seq<real>)
    requires |data| >= 4
    ensures Ordered(New(data))
    ensures New(data).minimum in data && New(data).maximum in data
    ensures forall k :: 0 <= k < |data| ==> New(data).minimum <= data[k] <= New(data).maximum
  {
    var s := Sorting.SortBy(data, Id);
    var r := New(data);
    assert RuleHolds(|s|);
    QuartileOrdered(0.25, 0.5, s);
    QuartileOrdered(0.5, 0.75, s);
    assert 0.0 <= 1.5 * (r.quartile3 - r.quartile1);
    SortedExtremes(data);
  }

  /** The ends of the sorted sample are entries of the data, and bound it. */
  lemma SortedExtremes(data: seq<real>)
    requires |data| > 0
    ensures var s := Sorting.SortBy(data, Id);
      s[0] in data && s[|s| - 1] in data &&
      forall k :: 0 <= k < |data| ==> s[0] <= data[k] <= s[|s| - 1]
  {
    SortedEnds(data, Sorting.SortBy(data, Id));
  }

  lemma SortedEnds(data: seq<real>, s: seq<real>)
    requires |data| > 0 && Sorting.SortedBy(s, Id) && multiset(s) == multiset(data)
    ensures |s| == |data|
    ensures s[0] in data && s[|s| - 1] in data
    ensures forall k :: 0 <= k < |data| ==> s[0] <= data[k] <= s[|s| - 1]
  {
    assert |s| == |multiset(s)| == |multiset(data)| == |data|;
    SameEntries(data, s);
    forall k | 0 <= k < |data| ensures s[0] <= data[k] <= s[|s| - 1] {
      var j := SortedIndex(s, data[k]);
    }
  }

  lemma SameEntries(a: seq<real>, b: seq<real>)
    requires multiset(a) == multiset(b)
    ensures forall x :: x in a <==> x in b
  {
    forall x ensures x in a <==> x in b {
      assert x in a <==> x in multiset(a);
      assert x in b <==> x in multiset(b);
    }
  }

  /** An entry of a sorted sample lies between its ends. */
  lemma SortedIndex(s: seq<real>, x: real) returns (j: nat)
    requires Sorting.SortedBy(s, Id) && x in s
    ensures j < |s| && s[j] == x && s[0] <= x <= s[|s| - 1]
  {
    j :| 0 <= j < |s| && s[j] == x;
    assert Id(s[0]) <= Id(s[j]) <= Id(s[|s| - 1]);
  }

  /** A scope's payloads: one sample, a group of samples, or an image
      (`mask` says which pixels of the frame the values belong to). */
  datatype Payload =
    | SignalPayload(tag: string, tau: real, value: real)
    | SignalsPayload(tag: string, tau: real, values: seq<real>)
    | ImagePayload(tag: string, tau: real, size: (nat, nat), pixels: seq<real>, mask: Option<seq<bool>>)

  /** What a scope keeps of a stream of payloads. */
  datatype SignalData =
    | Signal(tag: string, tau: real, points: seq<(real, real)>)
    | Signals(signals: seq<SignalData>)
    | Image(tag: string, time: real, size: (nat, nat), quantiles: Option<Quantiles>)

  /** `From<&Payload>`: a signal starts at the origin, a group has one such
      signal per value, an image at time zero without statistics. */
  function FromPayload(p: Payload): (d: SignalData)
    ensures p.SignalPayload? ==> d == Signal(p.tag, p.tau, [(0.0, 0.0)])
    ensures p.SignalsPayload? ==>
      && d.Signals? && |d.signals| == |p.values|
      && forall k :: 0 <= k < |p.values| ==> d.signals[k] == Signal(p.tag, p.tau, [(0.0, 0.0)])
    ensures p.ImagePayload? ==> d == Image(p.tag, 0.0, p.size, None)
  {
    match p
    case SignalPayload(tag, tau, _) => Signal(tag, tau, [(0.0, 0.0)])
    case SignalsPayload(tag, tau, values) =>
      Signals(seq(|values|, _ => Signal(tag, tau, [(0.0, 0.0)])))
    case ImagePayload(tag, _, size, _, _) => Image(tag, 0.0, size, None)
  }

  /** One sample drawn as a step: the level `v` from the last abscissa `x`
      to `x + tau`. */
  function Push(tau: real, points: seq<(real, real)>, v: real): (r: seq<(real, real)>)
    requires |points| > 0
    ensures |r| == |points| + 2 && r[..|points|] == points
    ensures r[|points|] == (points[|points| - 1].0, v)
    ensures r[|points| + 1] == (points[|points| - 1].0 + tau, v)
  {
    var x := points[|points| - 1].0;
    points + [(x, v), (x + tau, v)]
  }

  /** The payload fits the data it is added to (any other pairing is left
      as `todo!()`), a group has as many values as signals, and a masked
      image has enough pixels for its statistics. */
  predicate Fits(p: Payload, d: SignalData) {
    FitsWith(p, d, 8)
  }

  /** `Fits`, with `minPixels` the fewest pixels whose statistics can be
      taken: eight with the quartile rule as written, four with the rule
      proper. */
  predicate FitsWith(p: Payload, d: SignalData, minPixels: nat) {
    match (p, d)
    case (SignalPayload(_, _, _), Signal(_, _, points)) => |points| > 0
    case (SignalsPayload(_, _, values), Signals(signals)) =>
      && |values| == |signals|
      && forall k :: 0 <= k < |signals| ==> signals[k].Signal? ==> |signals[k].points| > 0
    case (ImagePayload(_, _, _, pixels, mask), Image(_, _, _, _)) => mask.Some? ==> |pixels| >= minPixels
    case _ => false
  }

  /** `SignalData::add_payload`: a sample is pushed onto its signal, a group
      of samples onto the group's signals one by one, and a masked image
      has its statistics taken with `Quantiles::new` as written. */
  function AddPayload(d: SignalData, p: Payload): (r: SignalData)
    requires Fits(p, d)
    ensures r.Signal? <==> d.Signal?
    ensures d.Signal? ==> r == d.(points := Push(d.tau, d.points, p.value))
    ensures d.Signals? ==> r.Signals? && |r.signals| == |d.signals|
    ensures d.Image? ==>
      && r.Image? && r.time == d.time + p.tau && r.tag == d.tag
      && r.quantiles == if p.mask.Some? then Some(NewAsWritten(p.pixels)) else d.quantiles
  {
    match (p, d)
    case (SignalPayload(_, _, v), Signal(tag, tau, points)) =>
      Signal(tag, tau, Push(tau, points, v))
    case (SignalsPayload(_, _, values), Signals(signals)) =>
      Signals(seq(|signals|, k requires 0 <= k < |signals| =>
        match signals[k]
        case Signal(tag, tau, points) => Signal(tag, tau, Push(tau, points, values[k]))
        case _ => signals[k]))
    case (ImagePayload(_, tau, _, pixels, mask), Image(tag, time, size, quantiles)) =>
      Image(tag, time + tau, size, if mask.Some? then Some(NewAsWritten(pixels)) else quantiles)
  }

  /** `add_payload` with the quartile rule proper: images from four pixels
      on, with ordered statistics; signals as before. */
  function AddPayloadCorrected(d: SignalData, p: Payload): (r: SignalData)
    requires FitsWith(p, d, 4)
    ensures !d.Image? ==> Fits(p, d) && r == AddPayload(d, p)
    ensures d.Image? ==>
      && r.Image? && r.time == d.time + p.tau && r.tag == d.tag
      && r.quantiles == if p.mask.Some? then Some(New(p.pixels)) else d.quantiles
  {
    if d.Image? then
      Image(d.tag, d.time + p.tau, d.size, if p.mask.Some? then Some(New(p.pixels)) else d.quantiles)
    else AddPayload(d, p)
  }

  /** The statistics an image payload leaves are in box-plot order, with
      either rule; on the pixels one to nine the two disagree on the
      median. */
  lemma AddPayloadImageStatistics(d: SignalData, p: Payload)
    requires d.Image? && p.ImagePayload? && p.mask.Some?
    ensures |p.pixels| >= 8 ==> Ordered(AddPayload(d, p).quantiles.value)
    ensures |p.pixels| >= 4 ==> Ordered(AddPayloadCorrected(d, p).quantiles.value)
    ensures p.pixels == [1.0, 2.0, 3.0, 4.0, 5.0, 6.0, 7.0, 8.0, 9.0] ==>
      AddPayload(d, p).quantiles.value.median == 6.0 && AddPayloadCorrected(d, p).quantiles.value.median == 5.0
  {
    if |p.pixels| >= 8 {
      NewAsWrittenOrdered(p.pixels);
    }
    if |p.pixels| >= 4 {
      NewOrdered(p.pixels);
    }
    if p.pixels == [1.0, 2.0, 3.0, 4.0, 5.0, 6.0, 7.0, 8.0, 9.0] {
      NewMedianOfNine(p.pixels);
    }
  }

  /** A group payload feeds its `k`-th value to its `k`-th signal, exactly as
      a single payload would. */
  lemma SignalsPointwise(d: SignalData, p: Payload, k: nat)
    requires d.Signals? && p.SignalsPayload? && Fits(p, d)
    requires k < |d.signals| && d.signals[k].Signal?
    ensures Fits(SignalPayload(p.tag, p.tau, p.values[k]), d.signals[k])
    ensures AddPayload(d, p).signals[k] == AddPayload(d.signals[k], SignalPayload(p.tag, p.tau, p.values[k]))
  {
  }

  /** The abscissa `k·tau` reached after `k` samples, as repeated
      additions of `tau` (the way the points accumulate it). */
  function Tick(k: nat, tau: real): real {
    if k == 0 then 0.0 else Tick(k - 1, tau) + tau
  }

  lemma {:induction false} TickIsProduct(k: nat, tau: real)
    ensures Tick(k, tau) == k as real * tau
  {
    if k > 0 {
      TickIsProduct(k - 1, tau);
      assert k as real * tau == (k - 1) as real * tau + tau;
    }
  }

  /** The points a fresh signal holds after the samples `vs`: each sample
      `v_k` is the level from `k·tau` to `(k+1)·tau`. */
  function Staircase(tau: real, vs: seq<real>): (r: seq<(real, real)>)
    ensures |r| == 2 * |vs|
    ensures forall k :: 0 <= k < |vs| ==>
      r[2 * k] == (Tick(k, tau), vs[k]) && r[2 * k + 1] == (Tick(k + 1, tau), vs[k])
    decreases |vs|
  {
    if |vs| == 0 then []
    else
      var n := |vs| - 1;
      var prev := Staircase(tau, vs[..n]);
      var r := prev + [(Tick(n, tau), vs[n]), (Tick(n + 1, tau), vs[n])];
      assert forall k :: 0 <= k < n ==> vs[..n][k] == vs[k];
      assert forall j :: 0 <= j < 2 * n ==> r[j] == prev[j];
      r
  }

  /** Feeding the samples `vs` one payload at a time. */
  function Feed(d: SignalData, tag: string, tau: real, vs: seq<real>): (r: SignalData)
    requires d.Signal? && |d.points| > 0
    ensures r.Signal? && |r.points| == |d.points| + 2 * |vs|
    decreases |vs|
  {
    if |vs| == 0 then d
    else Feed(AddPayload(d, SignalPayload(tag, tau, vs[0])), tag, tau, vs[1..])
  }

  /** A signal built from its first payload and fed the samples `vs` holds
      the origin followed by the staircase of `vs`. */
  lemma {:induction false} FeedStaircase(tag: string, tau: real, vs: seq<real>, done: seq<real>)
    ensures Feed(Signal(tag, tau, [(0.0, 0.0)] + Staircase(tau, done)), tag, tau, vs).points
      == [(0.0, 0.0)] + Staircase(tau, done + vs)
    decreases |vs|
  {
    if |vs| == 0 {
      assert vs == [];
      assert done + vs == done;
    } else {
      FeedStep(tag, tau, vs, done);
      FeedStaircase(tag, tau, vs[1..], done + [vs[0]]);
      MoveFirst(done, vs);
    }
  }

  lemma MoveFirst(done: seq<real>, vs: seq<real>)
    requires |vs| > 0
    ensures done + [vs[0]] + vs[1..] == done + vs
  {
  }

  /** Feeding the first sample extends the staircase by one step. */
  lemma FeedStep(tag: string, tau: real, vs: seq<real>, done: seq<real>)
    requires |vs| > 0
    ensures Feed(Signal(tag, tau, [(0.0, 0.0)] + Staircase(tau, done)), tag, tau, vs)
      == Feed(Signal(tag, tau, [(0.0, 0.0)] + Staircase(tau, done + [vs[0]])), tag, tau, vs[1..])
  {
    var d := Signal(tag, tau, [(0.0, 0.0)] + Staircase(tau, done));
    assert Feed(d, tag, tau, vs) == Feed(AddPayload(d, SignalPayload(tag, tau, vs[0])), tag, tau, vs[1..]);
    PushStep(tag, tau, done, vs[0]);
  }

  /** One more sample extends the staircase by one step. */
  lemma PushStep(tag: string, tau: real, done: seq<real>, v: real)
    ensures var d := Signal(tag, tau, [(0.0, 0.0)] + Staircase(tau, done));
      AddPayload(d, SignalPayload(tag, tau, v)) == Signal(tag, tau, [(0.0, 0.0)] + Staircase(tau, done + [v]))
  {
    var points := [(0.0, 0.0)] + Staircase(tau, done);
    var n := |done|;
    assert points[|points| - 1].0 == Tick(n, tau);
    var d := Signal(tag, tau, points);
    assert AddPayload(d, SignalPayload(tag, tau, v)).points == points + [(Tick(n, tau), v), (Tick(n + 1, tau), v)];
    assert (done + [v])[..n] == done;
    assert Staircase(tau, done + [v]) == Staircase(tau, done) + [(Tick(n, tau), v), (Tick(n + 1, tau), v)];
  }

  lemma FreshSignalStaircase(tag: string, tau: real, vs: seq<real>)
    ensures Feed(FromPayload(SignalPayload(tag, tau, 0.0)), tag, tau, vs).points
      == [(0.0, 0.0)] + Staircase(tau, vs)
  {
    assert [(0.0, 0.0)] + Staircase(tau, []) == [(0.0, 0.0)];
    FeedStaircase(tag, tau, vs, []);
    assert [] + vs == vs;
  }
}
