/**
 Processing of the dispersed fringe sensor's Fourier frame: the frame is
 chopped into square FFTlets, each FFTlet is masked and thresholded in its
 own rotated coordinates, and its intercept — the intensity-weighted mean
 of `y·sign(x)` — measures the differential piston across a segment
 border. Intercepts are taken relative to an optional reference.
 */
module DfsProcessing {
  import opened Common

  /** `x.iter().skip(k)` and `take(k)`: they stop at the end. */
  function Skip<T>(s: seq<T>, k: nat): (r: seq<T>)
    ensures k <= |s| ==> r == s[k..]
    ensures k > |s| ==> r == []
  {
    if k <= |s| then s[k..] else []
  }

  function Take<T>(s: seq<T>, k: nat): (r: seq<T>)
    ensures k <= |s| ==> r == s[..k]
    ensures k > |s| ==> r == s
  {
    if k <= |s| then s[..k] else s
  }

  /** The FFTlet in row block `i` and column block `j` of a frame whose rows
      are `rows`: rows `i·q ..` and, in each, columns `j·q ..`, `q` of each. */
  function FftletData(rows: seq<seq<real>>, q: nat, i: nat, j: nat): seq<real> {
    var band := Take(Skip(rows, i * q), q);
    Flatten(seq(|band|, r requires 0 <= r < |band| => Take(Skip(band[r], j * q), q)))
  }

  /** An imaging frame: `resolution × resolution` pixels, row after row,
      cut into `n_px_camera`-wide FFTlets. */
  datatype Frame = Frame(resolution: nat, nPxCamera: nat, data: seq<real>)

  /** FFTlets per side. */
  function PerSide(f: Frame): nat
    requires f.nPxCamera > 0
  {
    f.resolution / f.nPxCamera
  }

  /** `n_fftlet`: the FFTlet count rounded down to whole dozens. */
  function NFftlet(l: nat): (k: nat)
    ensures k <= l * l && k % 12 == 0
    ensures l * l - k < 12
  {
    12 * ((l * l) / 12)
  }

  /** How many FFTlets `process` keeps: it stops once `n_fftlet` are taken,
      a count it only meets when it is not zero. */
  function KeptCount(l: nat): (k: nat)
    ensures k <= l * l
  {
    if NFftlet(l) == 0 then l * l else NFftlet(l)
  }

  /** With at least four FFTlets per side the count is whole dozens; below,
      where there are fewer than twelve, all of them are kept. */
  lemma KeptCountCases(l: nat)
    ensures l >= 4 ==> KeptCount(l) == NFftlet(l) > 0 && KeptCount(l) % 12 == 0
    ensures l <= 3 ==> KeptCount(l) == l * l && l * l < 12
  {
    if l >= 4 {
      assert l * l >= 4 * l >= 16;
    } else {
      assert l * l <= 9;
    }
  }

  /** The `c`-th FFTlet kept: FFTlets go down a column block first, then
      on to the next column block. */
  function FftletAt(rows: seq<seq<real>>, q: nat, l: nat, c: nat): seq<real>
    requires l > 0
  {
    FftletData(rows, q, c % l, c / l)
  }

  /** FFTlet `j·l + i` is the one in row block `i` of column block `j`. */
  lemma Placed(rows: seq<seq<real>>, q: nat, l: nat, j: nat, i: nat, base: nat)
    requires i < l && base == j * l
    ensures FftletAt(rows, q, l, base + i) == FftletData(rows, q, i, j)
  {
    DivModUnique(base + i, l, j, i);
  }

  lemma NextBlock(j: nat, l: nat)
    ensures j * l + l == (j + 1) * l
  {
  }

  /** The FFTlets are taken in order: `chop` holds the first `|chop|`. */
  predicate Chopped(rows: seq<seq<real>>, q: nat, l: nat, chop: seq<seq<real>>)
    requires l > 0
  {
    forall c :: 0 <= c < |chop| ==> chop[c] == FftletAt(rows, q, l, c)
  }

  lemma ChoppedAppend(rows: seq<seq<real>>, q: nat, l: nat, chop: seq<seq<real>>, next: seq<real>)
    requires l > 0 && Chopped(rows, q, l, chop) && next == FftletAt(rows, q, l, |chop|)
    ensures Chopped(rows, q, l, chop + [next])
  {
    var chop' := chop + [next];
    forall c | 0 <= c < |chop'| ensures chop'[c] == FftletAt(rows, q, l, c) {
      if c < |chop| {
        assert chop'[c] == chop[c];
      }
    }
  }

  /** The inner loop of `process`, down column block `j`: it stops early,
      reporting it, when the count reaches `nFftlet`. */
  method ChopColumn(rows: seq<seq<real>>, q: nat, l: nat, j: nat, nFftlet: nat, chop0: seq<seq<real>>)
    returns (chop: seq<seq<real>>, full: bool)
    requires l > 0 && |chop0| == j * l && Chopped(rows, q, l, chop0)
    requires nFftlet == 0 || |chop0| < nFftlet
    ensures Chopped(rows, q, l, chop)
    ensures full ==> |chop| == nFftlet > 0
    ensures !full ==> |chop| == |chop0| + l && (nFftlet == 0 || |chop| < nFftlet)
  {
    chop := chop0;
    var base := |chop0|;
    var i := 0;
    while i < l
      invariant 0 <= i <= l
      invariant |chop| == base + i
      invariant nFftlet == 0 || |chop| < nFftlet
      invariant Chopped(rows, q, l, chop)
    {
      Placed(rows, q, l, j, i, base);
      ChoppedAppend(rows, q, l, chop, FftletData(rows, q, i, j));
      chop := chop + [FftletData(rows, q, i, j)];
      if |chop| == nFftlet {
        return chop, true;
      }
      i := i + 1;
    }
    return chop, false;
  }

  /** `process`: the loop over column blocks `j` and row blocks `i`, left as
      soon as `n_fftlet` FFTlets are taken. */
  method Process(frame: Frame) returns (data: seq<seq<real>>, n: nat)
    requires frame.nPxCamera > 0
    ensures n == frame.nPxCamera
    ensures |data| == KeptCount(PerSide(frame))
    ensures forall c :: 0 <= c < |data| ==>
      data[c] == FftletAt(Chunks(frame.data, frame.resolution), frame.nPxCamera, PerSide(frame), c)
  {
    var q := frame.nPxCamera;
    var l := frame.resolution / q;
    var nFftlet := NFftlet(l);
    if l == 0 {
      return [], q;
    }
    var rows := Chunks(frame.data, frame.resolution);
    var chop: seq<seq<real>> := [];
    var j := 0;
    while j < l
      invariant 0 <= j <= l
      invariant |chop| == j * l
      invariant nFftlet == 0 || |chop| < nFftlet
      invariant Chopped(rows, q, l, chop)
    {
      var full;
      chop, full := ChopColumn(rows, q, l, j, nFftlet, chop);
      if full {
        return chop, q;
      }
      NextBlock(j, l);
      j := j + 1;
    }
    assert |chop| == l * l;
    return chop, q;
  }

  /** `x.signum()` on the real line: zero counts as positive. Rust's
      `-0.0` has the sign -1, but `real` has a single zero. */
  function Signum(x: real): (s: real)
    ensures s == 1.0 || s == -1.0
    ensures x > 0.0 ==> s == 1.0
    ensures x < 0.0 ==> s == -1.0
  {
    if x >= 0.0 then 1.0 else -1.0
  }

  /** A pixel: its rotated coordinates and its intensity. */
  type Pixel = ((real, real), real)

  /** An FFTlet: the coordinates and intensity of each pixel kept. */
  datatype Fftlet = Fftlet(x: seq<real>, y: seq<real>, image: seq<real>)

  /** `x.iter().zip(y).zip(image)`: the pixels all three vectors have. */
  function Pixels(f: Fftlet): (ps: seq<Pixel>)
    ensures |ps| == Min(|f.x|, Min(|f.y|, |f.image|))
    ensures forall k :: 0 <= k < |ps| ==> ps[k] == ((f.x[k], f.y[k]), f.image[k])
  {
    var n := Min(|f.x|, Min(|f.y|, |f.image|));
    seq(n, k requires 0 <= k < n => ((f.x[k], f.y[k]), f.image[k]))
  }

  /** `unzip`: the FFTlet made of a run of pixels. */
  function Unzip(ps: seq<Pixel>): (f: Fftlet)
    ensures |f.x| == |f.y| == |f.image| == |ps|
    ensures forall k :: 0 <= k < |ps| ==> f.x[k] == ps[k].0.0 && f.y[k] == ps[k].0.1 && f.image[k] == ps[k].1
  {
    Fftlet(
      seq(|ps|, k requires 0 <= k < |ps| => ps[k].0.0),
      seq(|ps|, k requires 0 <= k < |ps| => ps[k].0.1),
      seq(|ps|, k requires 0 <= k < |ps| => ps[k].1))
  }

  /** Unzipping and zipping again gives the same pixels. */
  lemma ZipUnzip(ps: seq<Pixel>)
    ensures Pixels(Unzip(ps)) == ps
  {
  }

  /** The total intensity (`s` of the fold). */
  function Flux(f: Fftlet): real {
    SumReal(Intensities(f))
  }

  function Intensities(f: Fftlet): (i: seq<real>)
    ensures |i| == |Pixels(f)| && forall k :: 0 <= k < |i| ==> i[k] == f.image[k]
  {
    f.image[..|Pixels(f)|]
  }

  /** Each pixel's share of `sy`: intensity times `y·sign(x)`. */
  function Contributions(f: Fftlet): (c: seq<real>)
    ensures |c| == |Pixels(f)|
    ensures forall k :: 0 <= k < |c| ==> c[k] == f.image[k] * f.y[k] * Signum(f.x[k])
  {
    var n := |Pixels(f)|;
    seq(n, k requires 0 <= k < n => f.image[k] * f.y[k] * Signum(f.x[k]))
  }

  /** `Fftlet::intercept`: the weighted mean `sy / s`, when there is any
      light. */
  function Intercept(f: Fftlet): (r: Option<real>)
    ensures r.Some? <==> Flux(f) > 0.0
    ensures r.Some? ==> r.value * Flux(f) == SumReal(Contributions(f))
  {
    if Flux(f) > 0.0 then Some(SumReal(Contributions(f)) / Flux(f)) else None
  }

  lemma Product(a: real, b: real)
    requires 0.0 <= a && 0.0 <= b
    ensures 0.0 <= a * b
  {
  }

  lemma PositiveProduct(a: real, b: real)
    requires 0.0 < a && 0.0 < b
    ensures 0.0 < a * b
  {
  }

  /** One pixel's contribution is within `b` times its intensity. */
  lemma WeightedBound(i: real, y: real, sg: real, b: real)
    requires i >= 0.0 && -b <= y <= b && (sg == 1.0 || sg == -1.0)
    ensures -(i * b) <= i * y * sg <= i * b
  {
    Product(i, b - y);
    Product(i, b + y);
    assert i * (b - y) == i * b - i * y;
    assert i * (b + y) == i * b + i * y;
    if sg == 1.0 {
      assert i * y * sg == i * y;
    } else {
      assert i * y * sg == -(i * y);
    }
  }

  /** Termwise bounds carry over to the sums. */
  lemma {:induction false} SumBound(c: seq<real>, a: seq<real>)
    requires |c| == |a| && forall k :: 0 <= k < |c| ==> -a[k] <= c[k] <= a[k]
    ensures -SumReal(a) <= SumReal(c) <= SumReal(a)
  {
    if |c| > 0 {
      SumBound(c[1..], a[1..]);
    }
  }

  lemma {:induction false} SumScaled(a: seq<real>, s: seq<real>, b: real)
    requires |s| == |a| && forall k :: 0 <= k < |s| ==> s[k] == a[k] * b
    ensures SumReal(s) == SumReal(a) * b
  {
    if |s| > 0 {
      SumScaled(a[1..], s[1..], b);
      assert (a[0] + SumReal(a[1..])) * b == a[0] * b + SumReal(a[1..]) * b;
    }
  }

  lemma {:induction false} SumPositive(a: seq<real>, k: nat)
    requires k < |a| && a[k] > 0.0 && forall j :: 0 <= j < |a| ==> a[j] >= 0.0
    ensures SumReal(a) > 0.0
  {
    if k > 0 {
      SumPositive(a[1..], k - 1);
    } else {
      SumNonNegative(a[1..]);
    }
  }

  lemma {:induction false} SumNonNegative(a: seq<real>)
    requires forall j :: 0 <= j < |a| ==> a[j] >= 0.0
    ensures SumReal(a) >= 0.0
  {
    if |a| > 0 {
      SumNonNegative(a[1..]);
    }
  }

  /** Each pixel's intensity times `b`. */
  function Scaled(f: Fftlet, b: real): (a: seq<real>)
    ensures |a| == |Pixels(f)|
  {
    var n := |Pixels(f)|;
    seq(n, k requires 0 <= k < n => f.image[k] * b)
  }

  lemma ScaledSum(f: Fftlet, b: real)
    ensures SumReal(Scaled(f, b)) == Flux(f) * b
  {
    SumScaled(Intensities(f), Scaled(f, b), b);
  }

  lemma ContributionsWithin(f: Fftlet, bound: real)
    requires forall k :: 0 <= k < |f.image| ==> f.image[k] >= 0.0
    requires forall k :: 0 <= k < |f.y| ==> -bound <= f.y[k] <= bound
    ensures forall k :: 0 <= k < |Pixels(f)| ==> -Scaled(f, bound)[k] <= Contributions(f)[k] <= Scaled(f, bound)[k]
  {
    forall k | 0 <= k < |Pixels(f)| ensures -Scaled(f, bound)[k] <= Contributions(f)[k] <= Scaled(f, bound)[k] {
      WeightedBound(f.image[k], f.y[k], Signum(f.x[k]), bound);
    }
  }

  /** Over pixels whose intensity is not negative and whose `|y|` is at most
      `bound`, `sy` stays within `bound` times `s`. */
  lemma WeightedWithin(f: Fftlet, bound: real)
    requires forall k :: 0 <= k < |f.image| ==> f.image[k] >= 0.0
    requires forall k :: 0 <= k < |f.y| ==> -bound <= f.y[k] <= bound
    ensures -(Flux(f) * bound) <= SumReal(Contributions(f)) <= Flux(f) * bound
  {
    ContributionsWithin(f, bound);
    SumBound(Contributions(f), Scaled(f, bound));
    ScaledSum(f, bound);
  }

  lemma Bounded(s: real, sy: real, r: real, b: real)
    requires s > 0.0 && r * s == sy && -(s * b) <= sy <= s * b
    ensures -b <= r <= b
  {
    if r > b {
      PositiveProduct(r - b, s);
    }
    if r < -b {
      PositiveProduct(-b - r, s);
    }
  }

  /** The intercept of an FFTlet of non-negative intensities lies within
      the range of its `|y|`: it is a weighted mean of `±y`. */
  lemma InterceptBounded(f: Fftlet, bound: real)
    requires forall k :: 0 <= k < |f.image| ==> f.image[k] >= 0.0
    requires forall k :: 0 <= k < |f.y| ==> -bound <= f.y[k] <= bound
    requires Intercept(f).Some?
    ensures -bound <= Intercept(f).value <= bound
  {
    WeightedWithin(f, bound);
    Bounded(Flux(f), SumReal(Contributions(f)), Intercept(f).value, bound);
  }

  /** `hypot(x, y) > r`, without the square root. */
  predicate OutsideRadius(x: real, y: real, r: real) {
    r < 0.0 || x * x + y * y > r * r
  }

  /** The largest entry (`max_by` + `unwrap`: the image must not be empty). */
  function MaxOf(s: seq<real>): (m: real)
    requires |s| > 0
    ensures m in s && forall k :: 0 <= k < |s| ==> s[k] <= m
  {
    if |s| == 1 then s[0]
    else
      var rest := MaxOf(s[1..]);
      assert forall k :: 1 <= k < |s| ==> s[k] == s[1..][k - 1];
      if s[0] >= rest then s[0] else rest
  }

  /** The first stage of `fftlet`: with a mask radius, the coordinate and
      data pairs outside it; without one, all the coordinates and all the
      data, not zipped. */
  function Masked(xy: seq<(real, real)>, data: seq<real>, radius: Option<real>): (f: Fftlet)
    ensures radius.Some? ==> |f.x| == |f.y| == |f.image|
    ensures radius.None? ==> f == Unzip(seq(|xy|, k requires 0 <= k < |xy| => (xy[k], 0.0))).(image := data)
  {
    if radius.None? then Unzip(seq(|xy|, k requires 0 <= k < |xy| => (xy[k], 0.0))).(image := data)
    else
      var r := radius.value;
      var n := Min(|xy|, |data|);
      Unzip(Filter(seq(n, k requires 0 <= k < n => (xy[k], data[k])), (p: Pixel) => OutsideRadius(p.0.0, p.0.1, r)))
  }

  /** The brightness a pixel must exceed: `threshold` times the brightest
      one left by the mask. */
  function Cut(f: Fftlet, threshold: real): real
    requires |f.image| > 0
  {
    MaxOf(f.image) * threshold
  }

  /** `fftlet`: the pixel coordinates `xy` (the rotated grid of the FFTlet,
      which needs the sine and cosine of its angle) paired with the data;
      the mask drops the pixels within `radius` of the centre, and the
      threshold the pixels not brighter than `Cut`. */
  function MakeFftlet(xy: seq<(real, real)>, data: seq<real>, radius: Option<real>, threshold: Option<real>): (f: Fftlet)
    requires threshold.Some? ==> |Masked(xy, data, radius).image| > 0
    ensures threshold.None? ==> f == Masked(xy, data, radius)
    ensures threshold.Some? ==> |f.x| == |f.y| == |f.image|
    ensures threshold.Some? ==> forall p ::
      p in Pixels(f) <==> p in Pixels(Masked(xy, data, radius)) && p.1 > Cut(Masked(xy, data, radius), threshold.value)
    ensures threshold.Some? ==>
      Pixels(f) == Brighter(Pixels(Masked(xy, data, radius)), Cut(Masked(xy, data, radius), threshold.value))
  {
    var masked := Masked(xy, data, radius);
    if threshold.None? then masked
    else
      var kept := Brighter(Pixels(masked), Cut(masked, threshold.value));
      ZipUnzip(kept);
      Unzip(kept)
  }

  /** The pixels brighter than `cut`, in their order and with their
      repetitions (`filter`). */
  function Brighter(ps: seq<Pixel>, cut: real): (r: seq<Pixel>)
    ensures |r| <= |ps|
    ensures forall p :: p in r <==> p in ps && p.1 > cut
    decreases |ps|
  {
    if |ps| == 0 then []
    else (if ps[0].1 > cut then [ps[0]] else []) + Brighter(ps[1..], cut)
  }

  /** `kept` is the selection of `ps` at the increasing indices `idx`. */
  predicate Selects(ps: seq<Pixel>, kept: seq<Pixel>, idx: seq<nat>) {
    && |idx| == |kept|
    && (forall j :: 0 <= j < |idx| ==> idx[j] < |ps| && kept[j] == ps[idx[j]])
    && (forall i, j :: 0 <= i < j < |idx| ==> idx[i] < idx[j])
  }

  /** A selection of the tail is one of the whole sequence, at indices one
      further on, and stays one with the head selected in front. */
  lemma SelectsCons(ps: seq<Pixel>, kept: seq<Pixel>, idx: seq<nat>)
    requires |ps| > 0 && Selects(ps[1..], kept, idx)
    ensures Selects(ps, kept, Shift(idx))
    ensures Selects(ps, [ps[0]] + kept, [0] + Shift(idx))
  {
    var shifted := Shift(idx);
    forall j | 0 <= j < |shifted| ensures shifted[j] < |ps| && kept[j] == ps[shifted[j]] {
      assert ps[1..][idx[j]] == ps[idx[j] + 1];
    }
    var idx1 := [0] + shifted;
    var kept1 := [ps[0]] + kept;
    forall j | 0 <= j < |idx1| ensures idx1[j] < |ps| && kept1[j] == ps[idx1[j]] {
      if j > 0 {
        assert idx1[j] == shifted[j - 1] && kept1[j] == kept[j - 1];
      }
    }
  }

  /** Every index one further on. */
  function Shift(idx: seq<nat>): (r: seq<nat>)
    ensures |r| == |idx| && forall j :: 0 <= j < |r| ==> r[j] == idx[j] + 1
  {
    seq(|idx|, j requires 0 <= j < |idx| => idx[j] + 1)
  }

  /** Keeping the pixels brighter than a cut never changes their order:
      the pixels kept are an ordered selection of the pixels given. */
  lemma {:induction false} BrighterSelects(ps: seq<Pixel>, cut: real) returns (idx: seq<nat>)
    ensures Selects(ps, Brighter(ps, cut), idx)
    decreases |ps|
  {
    if |ps| == 0 {
      idx := [];
    } else {
      var rest := BrighterSelects(ps[1..], cut);
      SelectsCons(ps, Brighter(ps[1..], cut), rest);
      if ps[0].1 > cut {
        assert Brighter(ps, cut) == [ps[0]] + Brighter(ps[1..], cut);
        idx := [0] + Shift(rest);
      } else {
        assert Brighter(ps, cut) == Brighter(ps[1..], cut);
        idx := Shift(rest);
      }
    }
  }

  /** The pixels of a masked FFTlet are exactly the coordinate and data
      pairs outside the radius. */
  lemma MaskedPixels(xy: seq<(real, real)>, data: seq<real>, r: real)
    ensures forall p :: p in Pixels(Masked(xy, data, Some(r))) <==>
      (exists k :: 0 <= k < |xy| && k < |data| && p == (xy[k], data[k])) && OutsideRadius(p.0.0, p.0.1, r)
  {
    var n := Min(|xy|, |data|);
    var pairs := seq(n, k requires 0 <= k < n => (xy[k], data[k]));
    ZipUnzip(Filter(pairs, (p: Pixel) => OutsideRadius(p.0.0, p.0.1, r)));
    forall p ensures p in pairs <==> exists k :: 0 <= k < |xy| && k < |data| && p == (xy[k], data[k]) {
      if exists k :: 0 <= k < |xy| && k < |data| && p == (xy[k], data[k]) {
        var k :| 0 <= k < |xy| && k < |data| && p == (xy[k], data[k]);
        assert pairs[k] == p;
      }
    }
  }

  /** A threshold in `[0, 1)` of a positive maximum is a cut in
      `[0, max)`. */
  lemma CutBelowMax(f: Fftlet, t: real)
    requires 0.0 <= t < 1.0 && |f.image| > 0 && MaxOf(f.image) > 0.0
    ensures 0.0 <= Cut(f, t) < MaxOf(f.image)
  {
    var m := MaxOf(f.image);
    Product(m, t);
    PositiveProduct(m, 1.0 - t);
    assert m * (1.0 - t) == m - m * t;
  }

  /** Every pixel the threshold keeps is brighter than the cut. */
  lemma KeptAboveCut(xy: seq<(real, real)>, data: seq<real>, radius: Option<real>, t: real)
    requires |Masked(xy, data, radius).image| > 0
    ensures var f := MakeFftlet(xy, data, radius, Some(t));
      forall k :: 0 <= k < |f.image| ==> f.image[k] > Cut(Masked(xy, data, radius), t)
  {
    var f := MakeFftlet(xy, data, radius, Some(t));
    forall k | 0 <= k < |f.image| ensures f.image[k] > Cut(Masked(xy, data, radius), t) {
      assert Pixels(f)[k] in Pixels(f);
    }
  }

  /** The brightest pixel left by the mask is kept by a cut below it. */
  lemma BrightestKept(xy: seq<(real, real)>, data: seq<real>, radius: Option<real>, t: real) returns (i: nat)
    requires |Masked(xy, data, radius).image| > 0
    requires |xy| == |data|
    requires Cut(Masked(xy, data, radius), t) < MaxOf(Masked(xy, data, radius).image)
    ensures var f := MakeFftlet(xy, data, radius, Some(t));
      i < |f.image| && f.image[i] == MaxOf(Masked(xy, data, radius).image)
  {
    var masked := Masked(xy, data, radius);
    var f := MakeFftlet(xy, data, radius, Some(t));
    assert |masked.x| == |masked.y| == |masked.image|;
    var j :| 0 <= j < |masked.image| && masked.image[j] == MaxOf(masked.image);
    var kept := Pixels(masked)[j];
    assert kept in Pixels(masked);
    assert kept in Pixels(f);
    i :| 0 <= i < |Pixels(f)| && Pixels(f)[i] == kept;
  }

  /** With as many coordinates as data, a threshold below one and some
      light left by the mask, the brightest pixel survives and every pixel kept is lit: the FFTlet has
      an intercept. */
  lemma ThresholdKeepsLight(xy: seq<(real, real)>, data: seq<real>, radius: Option<real>, t: real)
    requires 0.0 <= t < 1.0 && |xy| == |data|
    requires |Masked(xy, data, radius).image| > 0 && MaxOf(Masked(xy, data, radius).image) > 0.0
    ensures var f := MakeFftlet(xy, data, radius, Some(t));
      Intercept(f).Some? && forall k :: 0 <= k < |f.image| ==> f.image[k] > 0.0
  {
    var f := MakeFftlet(xy, data, radius, Some(t));
    CutBelowMax(Masked(xy, data, radius), t);
    KeptAboveCut(xy, data, radius, t);
    var i := BrightestKept(xy, data, radius, t);
    assert Intensities(f)[i] > 0.0;
    SumPositive(Intensities(f), i);
  }

  /** The angle table `O`, in units of π/3: the FFTlet `c` is read in the
      grid rotated by `O[c % 12]`. */
  const Angles: seq<int> := [0, -1, 1, 0, -1, 1, -1, 1, 0, -1, 1, 0]

  /** `DispersedFringeSensorProcessing` */
  datatype Processing = Processing(
    data: seq<seq<real>>,
    n: nat,
    threshold: Option<real>,
    maskRadius: Option<real>,
    intercept: seq<real>,
    reference: Option<seq<real>>)

  /** `DispersedFringeSensorProcessing::new` */
  function New(): (p: Processing)
    ensures p.data == [] && p.intercept == [] && p.reference.None?
    ensures p.threshold == Some(0.2) && p.maskRadius == Some(0.05)
  {
    Processing([], 0, Some(0.2), Some(0.05), [], None)
  }

  /** `set_reference`, `threshold` and `mask_radius` */
  function SetReference(p: Processing, other: Processing): (r: Processing)
    ensures r == p.(reference := Some(other.intercept))
  {
    p.(reference := Some(other.intercept))
  }

  function WithThreshold(p: Processing, t: real): (r: Processing)
    ensures r == p.(threshold := Some(t))
  {
    p.(threshold := Some(t))
  }

  function WithMaskRadius(p: Processing, radius: real): (r: Processing)
    ensures r == p.(maskRadius := Some(radius))
  {
    p.(maskRadius := Some(radius))
  }

  /** `process` followed by storing its result. */
  method ProcessInto(p: Processing, frame: Frame) returns (r: Processing)
    requires frame.nPxCamera > 0
    ensures r == p.(data := r.data, n := frame.nPxCamera)
    ensures |r.data| == KeptCount(PerSide(frame))
    ensures forall c :: 0 <= c < |r.data| ==>
      r.data[c] == FftletAt(Chunks(frame.data, frame.resolution), frame.nPxCamera, PerSide(frame), c)
  {
    var data, n := Process(frame);
    r := p.(data := data, n := n);
  }

  /** The grid coordinates of an FFTlet rotated by `angle` (in units of
      π/3) are given as `coords(angle)`: they need trigonometry. The mask
      must leave pixels for the threshold to be taken. */
  predicate CanFilter(p: Processing, coords: int -> seq<(real, real)>) {
    forall c :: 0 <= c < |p.data| ==>
      p.threshold.Some? ==> |Masked(coords(Angles[c % 12]), p.data[c], p.maskRadius).image| > 0
  }

  /** `fftlets`: one FFTlet per chopped piece, with the cycled angles. */
  function Fftlets(p: Processing, coords: int -> seq<(real, real)>): (fs: seq<Fftlet>)
    requires CanFilter(p, coords)
    ensures |fs| == |p.data|
    ensures forall c :: 0 <= c < |fs| ==>
      fs[c] == MakeFftlet(coords(Angles[c % 12]), p.data[c], p.maskRadius, p.threshold)
  {
    seq(|p.data|, c requires 0 <= c < |p.data| =>
      MakeFftlet(coords(Angles[c % 12]), p.data[c], p.maskRadius, p.threshold))
  }

  /** The reference intercept of FFTlet `c`; the subtraction zips, so
      FFTlets past the end of the reference keep theirs. */
  function ReferenceAt(reference: Option<seq<real>>, c: nat): real {
    if reference.Some? && c < |reference.value| then reference.value[c] else 0.0
  }

  /** The intercepts of a run of FFTlets less the reference; if one FFTlet
      has no light at all, every intercept is zero. */
  function Measure(fs: seq<Fftlet>, reference: Option<seq<real>>): (r: seq<real>)
    ensures |r| == |fs|
    ensures (exists c :: 0 <= c < |fs| && Intercept(fs[c]).None?) ==> r == Repeat(0.0, |fs|)
    ensures (forall c :: 0 <= c < |fs| ==> Intercept(fs[c]).Some?) ==>
      forall c :: 0 <= c < |fs| ==> r[c] == Intercept(fs[c]).value - ReferenceAt(reference, c)
  {
    var xs := seq(|fs|, c requires 0 <= c < |fs| => Intercept(fs[c]));
    assert forall c :: 0 <= c < |fs| ==> xs[c] == Intercept(fs[c]);
    var all := CollectAll(xs);
    if all.None? then Repeat(0.0, |fs|)
    else
      var values := all.value;
      seq(|values|, c requires 0 <= c < |values| => values[c] - ReferenceAt(reference, c))
  }

  /** `intercept` */
  function Intercepts(p: Processing, coords: int -> seq<(real, real)>): (r: Processing)
    requires CanFilter(p, coords)
    ensures r == p.(intercept := Measure(Fftlets(p, coords), p.reference))
  {
    p.(intercept := Measure(Fftlets(p, coords), p.reference))
  }

  /** Taking a processing's own intercepts as the reference zeroes them:
      the reference is what later intercepts are measured from. */
  lemma SelfReferenceZero(p: Processing, coords: int -> seq<(real, real)>)
    requires CanFilter(p, coords) && p.reference.None?
    ensures var q := SetReference(p, Intercepts(p, coords));
      CanFilter(q, coords) && Intercepts(q, coords).intercept == Repeat(0.0, |p.data|)
  {
    var q := SetReference(p, Intercepts(p, coords));
    var fs := Fftlets(p, coords);
    assert Fftlets(q, coords) == fs;
    MeasureSelf(fs);
  }

  /** Measured against their own intercepts, FFTlets measure zero. */
  lemma MeasureSelf(fs: seq<Fftlet>)
    ensures Measure(fs, Some(Measure(fs, None))) == Repeat(0.0, |fs|)
  {
    if forall c :: 0 <= c < |fs| ==> Intercept(fs[c]).Some? {
      var m := Measure(fs, None);
      forall c | 0 <= c < |fs| ensures Measure(fs, Some(m))[c] == 0.0 {
        assert ReferenceAt(Some(m), c) == m[c] == Intercept(fs[c]).value;
      }
    } else {
      var c :| 0 <= c < |fs| && Intercept(fs[c]).None?;
    }
  }

  /** `Write<Intercepts>` */
  function Write(p: Processing): (r: Option<seq<real>>)
    ensures r == Some(p.intercept)
  {
    Some(p.intercept)
  }

  /** What is written after `intercept` are the FFTlets' intercepts less
      the reference; once a processing's own intercepts are its reference,
      it writes zeros. */
  lemma WriteIntercepts(p: Processing, coords: int -> seq<(real, real)>)
    requires CanFilter(p, coords)
    ensures Write(Intercepts(p, coords)).Some?
    ensures |Write(Intercepts(p, coords)).value| == |p.data|
    ensures forall c :: 0 <= c < |p.data| && (forall d :: 0 <= d < |p.data| ==> Intercept(Fftlets(p, coords)[d]).Some?) ==>
      Write(Intercepts(p, coords)).value[c] == Intercept(Fftlets(p, coords)[c]).value - ReferenceAt(p.reference, c)
    ensures p.reference.None? ==>
      var q := SetReference(p, Intercepts(p, coords));
      CanFilter(q, coords) && Write(Intercepts(q, coords)) == Some(Repeat(0.0, |p.data|))
  {
    if p.reference.None? {
      SelfReferenceZero(p, coords);
    }
  }

  /** The FFTlet `c` of a processing, before the threshold: the pixels
      its mask leaves. */
  function MaskedAt(p: Processing, coords: int -> seq<(real, real)>, c: nat): Fftlet
    requires c < |p.data|
  {
    Masked(coords(Angles[c % 12]), p.data[c], p.maskRadius)
  }

  /** After `threshold(t)`, every FFTlet keeps exactly the pixels left by
      the mask that are brighter than the cut, `t` times the brightest of
      them, in their order. */
  lemma ThresholdCuts(p: Processing, t: real, coords: int -> seq<(real, real)>)
    requires CanFilter(WithThreshold(p, t), coords)
    ensures forall c :: 0 <= c < |p.data| ==>
      |MaskedAt(p, coords, c).image| > 0 &&
      Pixels(Fftlets(WithThreshold(p, t), coords)[c]) == Brighter(Pixels(MaskedAt(p, coords, c)), Cut(MaskedAt(p, coords, c), t))
  {
    forall c | 0 <= c < |p.data|
      ensures |MaskedAt(p, coords, c).image| > 0
      ensures Pixels(Fftlets(WithThreshold(p, t), coords)[c]) == Brighter(Pixels(MaskedAt(p, coords, c)), Cut(MaskedAt(p, coords, c), t))
    {
      ThresholdCutsAt(p, t, coords, c);
    }
  }

  lemma ThresholdCutsAt(p: Processing, t: real, coords: int -> seq<(real, real)>, c: nat)
    requires CanFilter(WithThreshold(p, t), coords) && c < |p.data|
    ensures |MaskedAt(p, coords, c).image| > 0
    ensures Pixels(Fftlets(WithThreshold(p, t), coords)[c]) == Brighter(Pixels(MaskedAt(p, coords, c)), Cut(MaskedAt(p, coords, c), t))
  {
    var q := WithThreshold(p, t);
    var xy := coords(Angles[c % 12]);
    var masked := MaskedAt(p, coords, c);
    assert masked == Masked(xy, q.data[c], q.maskRadius);
    assert |masked.image| > 0;
    assert masked == Masked(xy, p.data[c], p.maskRadius);
    var f := MakeFftlet(xy, p.data[c], p.maskRadius, Some(t));
    assert Fftlets(q, coords)[c] == f;
    assert Pixels(f) == Brighter(Pixels(masked), Cut(masked, t));
  }

  /** After `mask_radius(r)`, no FFTlet keeps a pixel within `r` of its
      centre, whatever the threshold. */
  lemma MaskRadiusDrops(p: Processing, radius: real, coords: int -> seq<(real, real)>)
    requires CanFilter(WithMaskRadius(p, radius), coords)
    ensures forall c, px :: 0 <= c < |p.data| && px in Pixels(Fftlets(WithMaskRadius(p, radius), coords)[c]) ==>
      OutsideRadius(px.0.0, px.0.1, radius)
  {
    var q := WithMaskRadius(p, radius);
    forall c, px | 0 <= c < |p.data| && px in Pixels(Fftlets(q, coords)[c])
      ensures OutsideRadius(px.0.0, px.0.1, radius)
    {
      var xy := coords(Angles[c % 12]);
      MaskedPixels(xy, p.data[c], radius);
      assert px in Pixels(Masked(xy, p.data[c], Some(radius)));
    }
  }
}
