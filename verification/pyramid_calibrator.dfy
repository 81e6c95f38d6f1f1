/**
 The pyramid wavefront sensor calibrator as a reconstructor: the slopes it
 keeps, the offset it removes, and the estimate of each estimator, with the
 segment piston modes put back as zeros where the estimator left them out.
 */
module PyramidCalibrator {
  import opened Common

  /** A matrix of `|rows|` rows, each of `cols` entries. */
  datatype Matrix = Matrix(cols: nat, rows: seq<seq<real>>)

  predicate Shaped(m: Matrix) {
    forall i :: 0 <= i < |m.rows| ==> |m.rows[i]| == m.cols
  }

  function Dot(a: seq<real>, b: seq<real>): real
    requires |a| == |b|
  {
    if |a| == 0 then 0.0 else a[0] * b[0] + Dot(a[1..], b[1..])
  }

  /** `mat * x`; a vector of the wrong size panics. */
  function MatVec(m: Matrix, x: seq<real>): (r: seq<real>)
    requires Shaped(m) && |x| == m.cols
    ensures |r| == |m.rows|
    ensures forall i :: 0 <= i < |r| ==> r[i] == Dot(m.rows[i], x)
  {
    seq(|m.rows|, i requires 0 <= i < |m.rows| => Dot(m.rows[i], x))
  }

  /** Any row against the zero vector gives zero. */
  lemma {:induction false} DotZero(a: seq<real>)
    ensures Dot(a, Repeat(0.0, |a|)) == 0.0
  {
    if |a| > 0 {
      assert Repeat(0.0, |a|)[1..] == Repeat(0.0, |a| - 1);
      DotZero(a[1..]);
    }
  }

  lemma MatVecZero(m: Matrix)
    requires Shaped(m)
    ensures MatVec(m, Repeat(0.0, m.cols)) == Repeat(0.0, |m.rows|)
  {
    forall i | 0 <= i < |m.rows| ensures MatVec(m, Repeat(0.0, m.cols))[i] == 0.0 {
      DotZero(m.rows[i]);
    }
  }

  datatype Estimator =
    | H0(mat: Matrix)
    | H00(mat: Matrix)
    | H(mat: Matrix)
    | P(mat: Matrix)
    | HP(mat: Matrix)
    | ConstrainedHP(mat: Matrix)

  /** `PyramidCalibrator`: the matrices are kept by their shapes
      `(rows, columns)`, all the product needs of them. */
  datatype Calibrator = Calibrator(
    nMode: nat,
    hFilter: seq<bool>,
    pFilter: seq<bool>,
    offset: seq<real>,
    hShape: (nat, nat),
    pShape: (nat, nat),
    estimator: Option<Estimator>)

  /** `h_filter.iter().cycle()`, as far as `n` slopes reach; an empty
      filter cycles to nothing. */
  function Cycle(h: seq<bool>, n: nat): (r: seq<bool>)
    ensures |h| > 0 ==> |r| == n && forall k :: 0 <= k < n ==> r[k] == h[k % |h|]
    ensures |h| == 0 ==> r == []
  {
    if |h| == 0 then [] else seq(n, k requires 0 <= k < n => h[k % |h|])
  }

  /** `data`: the slopes `sx` then `sy` kept by the cycled H filter,
      followed by the same slopes kept by the P filter. */
  function Data(c: Calibrator, sx: seq<real>, sy: seq<real>): (r: seq<real>)
    ensures r == Select(sx + sy, Cycle(c.hFilter, |sx + sy|)) + Select(sx + sy, c.pFilter)
  {
    var s := sx + sy;
    Select(s, Cycle(c.hFilter, |s|)) + Select(s, c.pFilter)
  }

  /** Cycling a filter as long as each slope vector applies it to both:
      the H part is the `sx` slopes it keeps followed by the `sy` slopes
      it keeps. */
  lemma HFilterBothSlopes(c: Calibrator, sx: seq<real>, sy: seq<real>)
    requires |c.hFilter| == |sx| == |sy|
    ensures Data(c, sx, sy) ==
      Select(sx, c.hFilter) + Select(sy, c.hFilter) + Select(sx + sy, c.pFilter)
  {
    var h := c.hFilter;
    var n := |h|;
    if n > 0 {
      var cyc := Cycle(h, |sx + sy|);
      forall k | 0 <= k < |cyc| ensures cyc[k] == (h + h)[k] {
        if k >= n {
          DivModUnique(k, n, 1, k - n);
        } else {
          DivModUnique(k, n, 0, k);
        }
      }
      assert cyc == h + h;
      SelectAppend(sx, sy, h, h);
    }
  }

  /** With a filter no longer than the slopes, one entry per set flag. */
  lemma DataLength(c: Calibrator, sx: seq<real>, sy: seq<real>)
    requires |c.pFilter| <= |sx + sy|
    ensures |Data(c, sx, sy)| == CountTrue(Cycle(c.hFilter, |sx + sy|)) + CountTrue(c.pFilter)
  {
    SelectLength(sx + sy, Cycle(c.hFilter, |sx + sy|));
    SelectLength(sx + sy, c.pFilter);
  }

  /** The slopes less the calibration offset, as far as both reach. */
  function Centred(c: Calibrator, sx: seq<real>, sy: seq<real>): (r: seq<real>)
    ensures r == Diff(Data(c, sx, sy), c.offset)
  {
    Diff(Data(c, sx, sy), c.offset)
  }

  /** What the estimator reads: the H slopes for the H estimators, the P
      slopes for the P estimator, all the slopes otherwise. */
  function Input(c: Calibrator, e: Estimator, sxy: seq<real>): (r: seq<real>)
    requires c.hShape.0 <= |sxy|
    ensures e.H0? || e.H00? || e.H? ==> r == sxy[..c.hShape.0]
    ensures e.P? ==> r == sxy[c.hShape.0..]
    ensures e.HP? || e.ConstrainedHP? ==> r == sxy
  {
    match e
    case H0(_) => sxy[..c.hShape.0]
    case H00(_) => sxy[..c.hShape.0]
    case H(_) => sxy[..c.hShape.0]
    case P(_) => sxy[c.hShape.0..]
    case HP(_) => sxy
    case ConstrainedHP(_) => sxy
  }

  /** The conditions under which the product does not panic: the H slopes
      are there to slice, the estimator's columns match what it reads, and
      the zeros go where the estimate reaches. */
  predicate Applicable(c: Calibrator, sx: seq<real>, sy: seq<real>) {
    var sxy := Centred(c, sx, sy);
    c.estimator.Some? ==>
      var e := c.estimator.value;
      && c.hShape.0 <= |sxy|
      && Shaped(e.mat)
      && e.mat.cols == |Input(c, e, sxy)|
      && (e.H0? ==> 6 * c.nMode <= |e.mat.rows| + 6)
      && (e.P? ==> 6 * c.nMode <= |e.mat.rows|)
  }

  /** The estimator applied to what it reads, before any zero goes in. */
  function Raw(c: Calibrator, sx: seq<real>, sy: seq<real>): (r: seq<real>)
    requires Applicable(c, sx, sy) && c.estimator.Some?
    ensures |r| == |c.estimator.value.mat.rows|
  {
    var e := c.estimator.value;
    MatVec(e.mat, Input(c, e, Centred(c, sx, sy)))
  }

  /** `v.insert(j, x)` */
  function InsertAt(v: seq<real>, j: nat, x: real): (r: seq<real>)
    requires j <= |v|
    ensures |r| == |v| + 1 && r[j] == x
    ensures forall k :: 0 <= k < j ==> r[k] == v[k]
    ensures forall k :: j < k < |r| ==> r[k] == v[k - 1]
  {
    v[..j] + [x] + v[j..]
  }

  /** The first `k` segments of an estimate of `m` modes per segment
      without piston, each led by a zero piston. */
  function Pistoned(v: seq<real>, m: nat, k: nat): (r: seq<real>)
    requires k * m <= |v|
    ensures |r| == k * (m + 1)
  {
    if k == 0 then []
    else
      BlockStep(k, m);
      Pistoned(v, m, k - 1) + [0.0] + v[(k - 1) * m..k * m]
  }

  lemma BlockStep(k: nat, m: nat)
    requires k >= 1
    ensures (k - 1) * m + m == k * m
    ensures (k - 1) * (m + 1) + (m + 1) == k * (m + 1)
  {
  }

  /** Inserting the zero of segment `i` at `i * (m + 1)`, after the first
      `i` segments are in place, puts segment `i` in place. */
  lemma InsertStep(v: seq<real>, m: nat, i: nat)
    requires i < 6 && 6 * m <= |v|
    ensures i * m <= |v| && (i + 1) * m <= |v|
    ensures var w := Pistoned(v, m, i) + v[i * m..];
      i * (m + 1) <= |w| &&
      InsertAt(w, i * (m + 1), 0.0) == Pistoned(v, m, i + 1) + v[(i + 1) * m..]
  {
    BlockStep(i + 1, m);
    var lo, hi := i * m, (i + 1) * m;
    var p, block, tail := Pistoned(v, m, i), v[lo..hi], v[hi..];
    assert v[lo..] == block + tail by {
      SliceJoin(v, lo, hi);
    }
    InsertAfter(p, block, tail);
  }

  /** Inserting right after a prefix puts the value between the prefix
      and the rest. */
  lemma InsertAfter(p: seq<real>, block: seq<real>, tail: seq<real>)
    ensures InsertAt(p + (block + tail), |p|, 0.0) == p + [0.0] + block + tail
  {
    var w := p + (block + tail);
    assert w[..|p|] == p && w[|p|..] == block + tail;
  }

  lemma InsertLast(v: seq<real>, m: nat)
    requires 6 * m <= |v|
    ensures var w := Pistoned(v, m, 6) + v[6 * m..];
      6 * (m + 1) <= |w| &&
      InsertAt(w, 6 * (m + 1), 0.0) == Pistoned(v, m, 6) + [0.0] + v[6 * m..]
  {
    var p := Pistoned(v, m, 6);
    assert (p + v[6 * m..])[..|p|] == p;
    assert (p + v[6 * m..])[|p|..] == v[6 * m..];
  }

  /** The estimate after the zeros of the first `i` segments are in. */
  predicate Inserted(v: seq<real>, n: nat, i: nat, w: seq<real>) {
    && i <= 7
    && |w| == |v| + i
    && (n == 0 ==> w == Repeat(0.0, i) + v)
    && (n > 0 && i <= 6 ==> i * (n - 1) <= |v| && w == Pistoned(v, n - 1, i) + v[i * (n - 1)..])
    && (n > 0 && i == 7 ==> 6 * (n - 1) <= |v| && w == Pistoned(v, n - 1, 6) + [0.0] + v[6 * (n - 1)..])
  }

  lemma InsertedStep(v: seq<real>, n: nat, i: nat, w: seq<real>)
    requires i < 7 && 6 * n <= |v| + 6 && Inserted(v, n, i, w)
    ensures i * n <= |w| && Inserted(v, n, i + 1, InsertAt(w, i * n, 0.0))
  {
    if n == 0 {
      assert Repeat(0.0, i + 1) == [0.0] + Repeat(0.0, i);
    } else if i < 6 {
      InsertStep(v, n - 1, i);
    } else {
      InsertLast(v, n - 1);
    }
  }

  /** The H0 estimate: a zero inserted at `i * n` for each of the seven
      segments in turn, where the H0 matrix had its piston columns removed.
      An insert past the end panics. */
  method InsertPistons(v: seq<real>, n: nat) returns (w: seq<real>)
    requires 6 * n <= |v| + 6
    ensures |w| == |v| + 7
    ensures n == 0 ==> w == Repeat(0.0, 7) + v
    ensures n > 0 ==> 6 * (n - 1) <= |v| && w == Pistoned(v, n - 1, 6) + [0.0] + v[6 * (n - 1)..]
  {
    w := v;
    var i := 0;
    assert Repeat(0.0, 0) + v == v;
    while i < 7
      invariant Inserted(v, n, i, w)
    {
      InsertedStep(v, n, i, w);
      w := InsertAt(w, i * n, 0.0);
      i := i + 1;
    }
  }

  /** `&calibrator * &data`: the estimate from the centred slopes, with the
      piston zeros of the H0 and P estimators put back; no estimator gives
      an empty estimate. */
  method Mul(c: Calibrator, sx: seq<real>, sy: seq<real>) returns (r: seq<real>)
    requires Applicable(c, sx, sy)
    ensures c.estimator.None? ==> r == []
    ensures c.estimator.Some? && !c.estimator.value.H0? && !c.estimator.value.P? ==> r == Raw(c, sx, sy)
    ensures c.estimator.Some? && c.estimator.value.H0? ==> |r| == |Raw(c, sx, sy)| + 7
    ensures c.estimator.Some? && c.estimator.value.H0? && c.nMode > 0 ==>
      6 * (c.nMode - 1) <= |Raw(c, sx, sy)| &&
      r == Pistoned(Raw(c, sx, sy), c.nMode - 1, 6) + [0.0] + Raw(c, sx, sy)[6 * (c.nMode - 1)..]
    ensures c.estimator.Some? && c.estimator.value.P? ==>
      6 * c.nMode <= |Raw(c, sx, sy)| && r == InsertAt(Raw(c, sx, sy), 6 * c.nMode, 0.0)
  {
    if c.estimator.None? {
      return [];
    }
    var v := Raw(c, sx, sy);
    match c.estimator.value
    case H0(_) =>
      r := InsertPistons(v, c.nMode);
    case P(_) =>
      r := InsertAt(v, 6 * c.nMode, 0.0);
    case H00(_) =>
      r := v;
    case H(_) =>
      r := v;
    case HP(_) =>
      r := v;
    case ConstrainedHP(_) =>
      r := v;
  }

  /** The masks of the pistons, the first entry of each segment of `n`,
      and of the other modes, built segment by segment. */
  function PistonMask(k: nat, n: nat): (r: seq<bool>)
    requires n > 0
    ensures |r| == k * n
    decreases k
  {
    if k == 0 then []
    else
      BlockStep(k, n - 1);
      PistonMask(k - 1, n) + [true] + Repeat(false, n - 1)
  }

  function NonPiston(k: nat, n: nat): (r: seq<bool>)
    requires n > 0
    ensures |r| == k * n
    decreases k
  {
    if k == 0 then []
    else
      BlockStep(k, n - 1);
      NonPiston(k - 1, n) + [false] + Repeat(true, n - 1)
  }

  /** Entry `j` of the masks is a piston exactly when `j` is a multiple of
      the segment size. */
  lemma {:induction false} MasksAt(k: nat, n: nat)
    requires n > 0
    ensures forall j :: 0 <= j < k * n ==> PistonMask(k, n)[j] == (j % n == 0)
    ensures forall j :: 0 <= j < k * n ==> NonPiston(k, n)[j] == (j % n != 0)
    decreases k
  {
    if k > 0 {
      MasksAt(k - 1, n);
      BlockStep(k, n - 1);
      forall j | 0 <= j < k * n
        ensures PistonMask(k, n)[j] == (j % n == 0) && NonPiston(k, n)[j] == (j % n != 0)
      {
        if j >= (k - 1) * n {
          SegmentPosition(j, k - 1, n);
        }
      }
    }
  }

  /** Position `j` of the last of `k + 1` segments of `n` modes is its
      piston exactly when it is the first of them. */
  lemma SegmentPosition(j: nat, k: nat, n: nat)
    requires n > 0 && k * n <= j < k * n + n
    ensures j % n == j - k * n
  {
    DivModUnique(j, n, k, j - k * n);
  }

  lemma {:induction false} SelectConst(v: seq<real>, b: bool)
    ensures Select(v, Repeat(b, |v|)) == (if b then v else [])
  {
    if |v| > 0 {
      assert Repeat(b, |v|)[1..] == Repeat(b, |v| - 1);
      SelectConst(v[1..], b);
      assert [v[0]] + v[1..] == v;
    }
  }

  /** A segment led by its piston, under a mask that keeps either only the
      piston or everything else. */
  lemma SelectLed(block: seq<real>, piston: bool)
    ensures Select([0.0] + block, [piston] + Repeat(!piston, |block|)) ==
      (if piston then [0.0] else block)
  {
    var rest := Repeat(!piston, |block|);
    var x := [0.0] + block;
    var mask := [piston] + rest;
    assert x[1..] == block && mask[1..] == rest;
    assert Select(x, mask) == (if piston then [0.0] else []) + Select(block, rest);
    SelectConst(block, !piston);
  }

  /** Selecting over one more segment, led by its piston. */
  lemma SelectSegment(p: seq<real>, block: seq<real>, mask: seq<bool>, piston: bool)
    requires |p| == |mask|
    ensures Select(p + [0.0] + block, mask + [piston] + Repeat(!piston, |block|)) ==
      Select(p, mask) + (if piston then [0.0] else block)
  {
    var rest := Repeat(!piston, |block|);
    SelectAppend(p, [0.0] + block, mask, [piston] + rest);
    assert p + [0.0] + block == p + ([0.0] + block);
    assert mask + [piston] + rest == mask + ([piston] + rest);
    SelectLed(block, piston);
  }

  /** Dropping the pistons, as the H0 matrix dropped their columns, gives
      the H0 estimate back; keeping only the pistons gives zeros. */
  lemma Pistons(v: seq<real>, m: nat, k: nat)
    requires k * m <= |v|
    ensures Select(Pistoned(v, m, k), NonPiston(k, m + 1)) == v[..k * m]
    ensures Select(Pistoned(v, m, k), PistonMask(k, m + 1)) == Repeat(0.0, k)
  {
    PistonsDropped(v, m, k);
    PistonsZero(v, m, k);
  }

  lemma {:induction false} PistonsDropped(v: seq<real>, m: nat, k: nat)
    requires k * m <= |v|
    ensures Select(Pistoned(v, m, k), NonPiston(k, m + 1)) == v[..k * m]
  {
    if k > 0 {
      BlockStep(k, m);
      var a, b := (k - 1) * m, k * m;
      PistonsDropped(v, m, k - 1);
      var p, block := Pistoned(v, m, k - 1), v[a..b];
      var mask := NonPiston(k - 1, m + 1);
      assert Pistoned(v, m, k) == p + [0.0] + block;
      assert NonPiston(k, m + 1) == mask + [false] + Repeat(true, m);
      assert Select(p + [0.0] + block, mask + [false] + Repeat(true, m)) == v[..a] + block by {
        SelectSegment(p, block, mask, false);
      }
      assert v[..a] + block == v[..b] by {
        PrefixJoin(v, a, b);
      }
    }
  }

  lemma {:induction false} PistonsZero(v: seq<real>, m: nat, k: nat)
    requires k * m <= |v|
    ensures Select(Pistoned(v, m, k), PistonMask(k, m + 1)) == Repeat(0.0, k)
  {
    if k > 0 {
      BlockStep(k, m);
      var a, b := (k - 1) * m, k * m;
      PistonsZero(v, m, k - 1);
      var p, block := Pistoned(v, m, k - 1), v[a..b];
      ZeroStep(p, block, k - 1, m);
      assert Repeat(0.0, k - 1) + [0.0] == Repeat(0.0, k);
    }
  }

  /** A segment led by its zero piston adds that zero to what the piston
      mask keeps. */
  lemma ZeroStep(p: seq<real>, block: seq<real>, k: nat, m: nat)
    requires |block| == m && |p| == k * (m + 1)
    ensures Select(p + [0.0] + block, PistonMask(k + 1, m + 1)) == Select(p, PistonMask(k, m + 1)) + [0.0]
  {
    SelectSegment(p, block, PistonMask(k, m + 1), true);
  }

  /** With an H0 matrix of `7 * (n - 1)` rows, the estimate has the `7 * n`
      entries of all the modes: the piston of each segment is zero and the
      other modes are the H0 estimate in order. */
  lemma H0EstimateFull(v: seq<real>, n: nat)
    requires n > 0 && |v| == 7 * (n - 1)
    ensures Pistoned(v, n - 1, 6) + [0.0] + v[6 * (n - 1)..] == Pistoned(v, n - 1, 7)
    ensures Select(Pistoned(v, n - 1, 7), NonPiston(7, n)) == v
    ensures Select(Pistoned(v, n - 1, 7), PistonMask(7, n)) == Repeat(0.0, 7)
  {
    var m := n - 1;
    assert n == m + 1;
    AllSegments(v, m);
  }

  lemma AllSegments(v: seq<real>, m: nat)
    requires |v| == 7 * m
    ensures Pistoned(v, m, 6) + [0.0] + v[6 * m..] == Pistoned(v, m, 7)
    ensures Select(Pistoned(v, m, 7), NonPiston(7, m + 1)) == v
    ensures Select(Pistoned(v, m, 7), PistonMask(7, m + 1)) == Repeat(0.0, 7)
  {
    BlockStep(7, m);
    assert v[6 * m..7 * m] == v[6 * m..];
    Pistons(v, m, 7);
    assert v[..7 * m] == v;
  }

  /** The P estimate's zero sits at the centre segment's piston, and taking
      it out gives the estimate back. */
  lemma PEstimateZero(v: seq<real>, n: nat)
    requires 6 * n <= |v|
    ensures InsertAt(v, 6 * n, 0.0)[6 * n] == 0.0
    ensures var w := InsertAt(v, 6 * n, 0.0); w[..6 * n] + w[6 * n + 1..] == v
  {
    var w := InsertAt(v, 6 * n, 0.0);
    assert w[..6 * n] == v[..6 * n];
    assert w[6 * n + 1..] == v[6 * n..];
  }

  /** Slopes equal to the calibration offset, with no slope past it, make
      every estimator's estimate zero. */
  lemma OffsetEstimatesZero(c: Calibrator, sx: seq<real>, sy: seq<real>)
    requires Applicable(c, sx, sy) && c.estimator.Some?
    requires Data(c, sx, sy) == c.offset
    ensures Raw(c, sx, sy) == Repeat(0.0, |c.estimator.value.mat.rows|)
  {
    var e := c.estimator.value;
    var sxy := Centred(c, sx, sy);
    assert sxy == Repeat(0.0, |sxy|);
    assert Input(c, e, sxy) == Repeat(0.0, e.mat.cols);
    MatVecZero(e.mat);
  }

  /** `set_hp_estimator`: the reconstructor must map all the H and P slopes
      onto the modes of the H matrix's columns; another shape panics. */
  function SetHpEstimator(c: Calibrator, rec: Matrix): (r: Calibrator)
    requires |rec.rows| == c.hShape.1 && rec.cols == c.hShape.0 + c.pShape.0
    ensures r.estimator == Some(HP(rec))
    ensures r == c.(estimator := r.estimator)
  {
    c.(estimator := Some(HP(rec)))
  }

  /** The shape check is what the product needs: once the slopes less the
      offset are as many as the H and P rows together, the estimate has one
      entry per column of the H matrix. */
  lemma HpEstimatorApplies(c: Calibrator, rec: Matrix, sx: seq<real>, sy: seq<real>)
    requires |rec.rows| == c.hShape.1 && rec.cols == c.hShape.0 + c.pShape.0 && Shaped(rec)
    requires |Centred(c, sx, sy)| == c.hShape.0 + c.pShape.0
    ensures Applicable(SetHpEstimator(c, rec), sx, sy)
    ensures |Raw(SetHpEstimator(c, rec), sx, sy)| == c.hShape.1
  {
  }
}
