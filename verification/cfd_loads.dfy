/**
 The CFD wind-load client: loads are stored as one long vector per
 destination (the mount nodes, the seven M1 segments, the seven M2
 segments), `n` values per time sample, and resampled to the simulation
 rate by holding (`ZOH`) or by interpolating linearly between two samples
 (`FOH`). The coordinate transforms of the display are left out.
 */
module CfdLoads {
  import opened Common

  /** Values per time sample on M1 or M2: 7 segments × (3 forces + 3
      moments). */
  const SegmentValues: nat := 42

  /** First-order hold: `rate` simulation steps per CFD sample, the index
      `i` of the current CFD sample and the fraction `u` of the way to the
      next one. */
  datatype Foh = Foh(rate: nat, i: nat, u: real)

  /** `FOH::new(rate)` */
  function NewFoh(rate: nat): (f: Foh)
    ensures f.rate == rate && f.i == 0 && f.u == 0.0
  {
    Foh(rate, 0, 0.0)
  }

  /** `update(step)`: the CFD sample `step` falls in and the position
      within it (`rate == 0` divides by zero). */
  function Update(f: Foh, step: nat): (r: Foh)
    requires f.rate > 0
    ensures r.rate == f.rate
    ensures r.i * f.rate <= step < (r.i + 1) * f.rate
    ensures 0.0 <= r.u < 1.0
    ensures (r.i as real + r.u) * (f.rate as real) == step as real
  {
    var i := step / f.rate;
    DivBounds(step, f.rate);
    var m := step - i * f.rate;
    var u := m as real / f.rate as real;
    Fraction(i, m, f.rate);
    Foh(f.rate, i, u)
  }

  lemma Fraction(i: nat, m: nat, rate: nat)
    requires m < rate
    ensures 0.0 <= m as real / rate as real < 1.0
    ensures (i as real + m as real / rate as real) * (rate as real) == (i * rate + m) as real
  {
    var u := m as real / rate as real;
    assert u * (rate as real) == m as real;
    assert (i as real + u) * (rate as real) == (i as real) * (rate as real) + u * (rate as real);
    assert (i as real) * (rate as real) == (i * rate) as real;
  }

  /** `update` at a multiple of the rate lands exactly on a CFD sample. */
  lemma UpdateOnSample(f: Foh, k: nat)
    requires f.rate > 0
    ensures Update(f, k * f.rate).i == k && Update(f, k * f.rate).u == 0.0
  {
    DivModUnique(k * f.rate, f.rate, k, 0);
  }

  /** `(y1 - y0) · u + y0` elementwise, over the shorter of the two. */
  function Lerp(y0: seq<real>, y1: seq<real>, u: real): (r: seq<real>)
    ensures |r| == Min(|y0|, |y1|)
    ensures forall k :: 0 <= k < |r| ==> r[k] == (y1[k] - y0[k]) * u + y0[k]
  {
    seq(Min(|y0|, |y1|), k requires 0 <= k < Min(|y0|, |y1|) => (y1[k] - y0[k]) * u + y0[k])
  }

  /** `sample(x, n)`: the interpolation between CFD samples `i` and `i + 1`
      of `x`, cut in `n`-value samples, if both exist. */
  function Sample(f: Foh, x: seq<real>, n: nat): (r: Option<seq<real>>)
    requires n > 0
    ensures r.Some? <==> Times(f.i + 1, n) < |x|
    ensures r.Some? ==> f.i + 1 < |Chunks(x, n)| && r.value == Lerp(Chunks(x, n)[f.i], Chunks(x, n)[f.i + 1], f.u)
  {
    ChunksCount(x, n, f.i + 1);
    var cs := Chunks(x, n);
    if f.i + 1 < |cs| then Some(Lerp(cs[f.i], cs[f.i + 1], f.u)) else None
  }

  /** On a CFD sample the interpolation is that sample, truncated to the
      length of the next one. */
  lemma SampleOnKnot(f: Foh, x: seq<real>, n: nat)
    requires n > 0 && f.u == 0.0 && Sample(f, x, n).Some?
    ensures var y0 := Chunks(x, n)[f.i];
      Sample(f, x, n).value == y0[..|Sample(f, x, n).value|]
  {
  }

  /** Between two CFD samples every interpolated value lies between the two
      sampled values. */
  lemma SampleBetween(f: Foh, x: seq<real>, n: nat, k: nat)
    requires n > 0 && 0.0 <= f.u <= 1.0 && Sample(f, x, n).Some? && k < |Sample(f, x, n).value|
    ensures f.i + 1 < |Chunks(x, n)| && k < |Chunks(x, n)[f.i]| && k < |Chunks(x, n)[f.i + 1]|
    ensures RealMin(Chunks(x, n)[f.i][k], Chunks(x, n)[f.i + 1][k]) <= Sample(f, x, n).value[k]
      <= RealMax(Chunks(x, n)[f.i][k], Chunks(x, n)[f.i + 1][k])
  {
    var cs := Chunks(x, n);
    var v := Sample(f, x, n).value;
    assert v == Lerp(cs[f.i], cs[f.i + 1], f.u);
    LerpBetween(cs[f.i][k], cs[f.i + 1][k], f.u);
  }

  lemma LerpBetween(y0: real, y1: real, u: real)
    requires 0.0 <= u <= 1.0
    ensures RealMin(y0, y1) <= (y1 - y0) * u + y0 <= RealMax(y0, y1)
  {
    if y0 <= y1 {
      var d := y1 - y0;
      ScaleBetween(d, u);
      assert 0.0 <= d * u <= d;
      assert y0 <= d * u + y0 <= y1;
    } else {
      var d := y0 - y1;
      ScaleBetween(d, u);
      var t := d * u;
      assert 0.0 <= t <= d;
      assert (y1 - y0) * u == -t;
      assert (y1 - y0) * u + y0 == y0 - t;
    }
  }

  function RealMin(a: real, b: real): real {
    if a <= b then a else b
  }

  function RealMax(a: real, b: real): real {
    if a <= b then b else a
  }

  lemma ScaleBetween(d: real, u: real)
    requires d >= 0.0 && 0.0 <= u <= 1.0
    ensures 0.0 <= d * u <= d
  {
    assert d * u <= d * 1.0;
  }

  /** Elementwise accumulation of one sample into the running sums (the
      sums beyond a short sample are untouched). */
  function AddInto(acc: seq<real>, x: seq<real>): (r: seq<real>)
    ensures |r| == |acc|
    ensures forall k :: 0 <= k < |acc| ==> r[k] == if k < |x| then acc[k] + x[k] else acc[k]
  {
    seq(|acc|, k requires 0 <= k < |acc| => if k < |x| then acc[k] + x[k] else acc[k])
  }

  function FoldAdd(acc: seq<real>, xs: seq<seq<real>>): (r: seq<real>)
    ensures |r| == |acc|
    decreases |xs|
  {
    if |xs| == 0 then acc else FoldAdd(AddInto(acc, xs[0]), xs[1..])
  }

  /** The time average of a load vector of `n`-value samples: the sum of
      every sample, the short tail included, divided by the number of whole
      samples (fewer than `n` values divide by zero in floating point,
      which is not modelled). */
  function Mean(data: seq<real>, n: nat): (r: seq<real>)
    requires n > 0 && |data| >= n
    ensures |r| == n
    ensures forall i :: 0 <= i < n ==> r[i] == ColumnSum(data, n, i) / (|data| / n) as real
  {
    var n_step := |data| / n;
    assert n_step > 0 by {
      DivBounds(|data|, n);
    }
    var sums := FoldAdd(Repeat(0.0, n), Chunks(data, n));
    assert forall i :: 0 <= i < n ==> sums[i] == ColumnSum(data, n, i) by {
      forall i | 0 <= i < n ensures sums[i] == ColumnSum(data, n, i) {
        FoldColumn(Repeat(0.0, n), data, n, i);
      }
    }
    Divide(sums, n_step)
  }

  /** Reference sum of column `i`: the values `i`, `i + n`, `i + 2n`, … of
      the load vector. */
  function ColumnSum(data: seq<real>, n: nat, i: nat): real
    requires i < n
    decreases |data|
  {
    if |data| <= i then 0.0
    else data[i] + (if |data| <= n then 0.0 else ColumnSum(data[n..], n, i))
  }

  /** Summing the chunks entry by entry adds each column's values to the
      running sums. */
  lemma {:induction false} FoldColumn(acc: seq<real>, data: seq<real>, n: nat, i: nat)
    requires i < n && |acc| == n
    ensures FoldAdd(acc, Chunks(data, n))[i] == acc[i] + ColumnSum(data, n, i)
    decreases |data|
  {
    var cs := Chunks(data, n);
    if |data| == 0 {
      assert cs == [];
    } else if |data| <= n {
      assert cs == [data];
      assert cs[1..] == [];
    } else {
      assert cs == [data[..n]] + Chunks(data[n..], n);
      assert cs[0] == data[..n] && cs[1..] == Chunks(data[n..], n);
      FoldColumn(AddInto(acc, data[..n]), data[n..], n, i);
    }
  }

  /** Every entry divided by `d`. */
  function Divide(v: seq<real>, d: nat): (r: seq<real>)
    requires d > 0
    ensures |r| == |v|
  {
    seq(|v|, k requires 0 <= k < |v| => v[k] / d as real)
  }

  /** `k` copies of a sample added up, entry by entry. */
  function Scale(v: seq<real>, k: nat): (r: seq<real>)
    ensures |r| == |v|
  {
    if k == 0 then Repeat(0.0, |v|) else AddInto(Scale(v, k - 1), v)
  }

  lemma {:induction false} ScaleAt(v: seq<real>, k: nat, j: nat)
    requires j < |v|
    ensures Scale(v, k)[j] == (k as real) * v[j]
  {
    if k > 0 {
      ScaleAt(v, k - 1, j);
      MulSucc((k - 1) as real, v[j]);
    }
  }

  lemma MulSucc(a: real, x: real)
    ensures a * x + x == (a + 1.0) * x
  {
  }

  /** Dividing by `k` undoes adding up `k` copies. */
  lemma DivideScale(v: seq<real>, k: nat)
    requires k > 0
    ensures Divide(Scale(v, k), k) == v
  {
    var r := Divide(Scale(v, k), k);
    forall j | 0 <= j < |v| ensures r[j] == v[j] {
      ScaleAt(v, k, j);
      DivCancel(Scale(v, k)[j], v[j], k as real);
    }
  }

  /** Adding `k` more copies to `i` copies gives `i + k` copies. */
  lemma {:induction false} FoldAddRepeat(c: seq<real>, i: nat, k: nat)
    ensures FoldAdd(Scale(c, i), Repeat(c, k)) == Scale(c, i + k)
    decreases k
  {
    if k > 0 {
      var r := Repeat(c, k);
      assert r[0] == c && r[1..] == Repeat(c, k - 1);
      FoldAddRepeat(c, i + 1, k - 1);
    } else {
      assert Repeat(c, 0) == [];
    }
  }

  /** The mean of `k` identical samples is that sample. */
  lemma MeanOfSteadyLoad(c: seq<real>, k: nat)
    requires |c| > 0 && k > 0
    ensures |Flatten(Repeat(c, k))| >= |c|
    ensures Mean(Flatten(Repeat(c, k)), |c|) == c
  {
    SteadyLength(c, k);
    SteadySums(c, k);
    MeanOfSums(Flatten(Repeat(c, k)), c, k);
  }

  lemma SteadyLength(c: seq<real>, k: nat)
    requires |c| > 0 && k > 0
    ensures |Flatten(Repeat(c, k))| >= |c| && |Flatten(Repeat(c, k))| / |c| == k
  {
    var data := Flatten(Repeat(c, k));
    FlattenRepeatLength(c, k);
    MulAtLeast(k, |c|);
    DivModUnique(|data|, |c|, k, 0);
  }

  /** Summed over `k` copies, each entry is `k` times the sample's. */
  lemma SteadySums(c: seq<real>, k: nat)
    requires |c| > 0
    ensures FoldAdd(Repeat(0.0, |c|), Chunks(Flatten(Repeat(c, k)), |c|)) == Scale(c, k)
  {
    assert FoldAdd(Repeat(0.0, |c|), Repeat(c, k)) == Scale(c, k) by {
      FoldAddRepeat(c, 0, k);
    }
    ChunksOfRepeat(c, k);
  }

  /** The mean of sums that are `k` times a sample, over `k` whole
      samples, is that sample. */
  lemma MeanOfSums(data: seq<real>, c: seq<real>, k: nat)
    requires |c| > 0 && k > 0 && |data| >= |c| && |data| / |c| == k
    requires FoldAdd(Repeat(0.0, |c|), Chunks(data, |c|)) == Scale(c, k)
    ensures Mean(data, |c|) == c
  {
    DivideScale(c, k);
  }

  lemma DivCancel(x: real, y: real, k: real)
    requires k != 0.0 && x == k * y
    ensures x / k == y
  {
  }

  lemma {:induction false} FlattenRepeatLength(c: seq<real>, k: nat)
    ensures |Flatten(Repeat(c, k))| == k * |c|
  {
    if k > 0 {
      var r := Repeat(c, k);
      assert r[1..] == Repeat(c, k - 1);
      FlattenRepeatLength(c, k - 1);
      assert k * |c| == (k - 1) * |c| + |c|;
    } else {
      assert Repeat(c, 0) == [];
    }
  }

  /** How the loads are resampled (`CfdLoads<S>`'s `upsampling`). */
  datatype Upsampling = Zoh(factor: nat) | FirstOrder(foh: Foh)

  /** `CfdLoads`: the loads on the mount nodes (`n_fm` values per sample),
      M1 and M2, the current step and the last step. The node list is left
      out. */
  datatype Loads = Loads(
    oss: Option<seq<real>>,
    m1: Option<seq<real>>,
    m2: Option<seq<real>>,
    n_fm: nat,
    step: nat,
    upsampling: Upsampling,
    max_step: nat)

  /** `oss_mean` */
  function OssMean(c: Loads): (r: Option<seq<real>>)
    requires c.oss.Some? ==> c.n_fm > 0 && |c.oss.value| >= c.n_fm
    ensures r.Some? <==> c.oss.Some?
    ensures r.Some? ==> r.value == Mean(c.oss.value, c.n_fm)
  {
    if c.oss.Some? then Some(Mean(c.oss.value, c.n_fm)) else None
  }

  /** `m1_mean` */
  function M1Mean(c: Loads): (r: Option<seq<real>>)
    requires c.m1.Some? ==> |c.m1.value| >= SegmentValues
    ensures r.Some? <==> c.m1.Some?
    ensures r.Some? ==> |r.value| == SegmentValues && r.value == Mean(c.m1.value, SegmentValues)
  {
    if c.m1.Some? then Some(Mean(c.m1.value, SegmentValues)) else None
  }

  /** `stop_after(max_step)` */
  function StopAfter(c: Loads, max_step: nat): (r: Loads)
    ensures r.max_step == max_step && r == c.(max_step := max_step)
  {
    c.(max_step := max_step)
  }

  /** `start_from(step)`: resumes after `step` with no last step (`step + 1`
      overflows at `usize::MAX`). */
  function StartFrom(c: Loads, step: nat): (r: Loads)
    requires step < UsizeMax
    ensures r.step == step + 1 && r.max_step == UsizeMax
    ensures r == c.(step := r.step, max_step := r.max_step)
  {
    c.(max_step := UsizeMax, step := step + 1)
  }

  /** `start_from` cancels an earlier `stop_after`; a later `stop_after`
      keeps the start. */
  lemma StartStopOrder(c: Loads, step: nat, max_step: nat)
    requires step < UsizeMax
    ensures StartFrom(StopAfter(c, max_step), step) == StartFrom(c, step)
    ensures StopAfter(StartFrom(c, step), max_step).step == step + 1
  {
  }
}
