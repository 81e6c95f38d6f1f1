/**
 The part of the CFD loads builder that shapes the time series: the number
 of samples a requested duration asks for, and the extension of a recording
 that is too short by playing it forward, then backward, then forward
 again, until it covers that many samples.
 */
module WindLoadsBuilder {
  import opened Common

  /** CFD samples per second of the recordings. */
  const CfdRate: nat := 20

  /** The smallest integer not below `x` (`f64::ceil`). */
  function Ceil(x: real): (c: int)
    ensures (c - 1) as real < x <= c as real
  {
    -((-x).Floor)
  }

  /** `n` is the fewest whole seconds that cover `d`: at least `d`, and
      one second less would not be. */
  predicate LeastWholeAtLeast(n: nat, d: real) {
    d <= n as real && (n == 0 || (n - 1) as real < d)
  }

  /** At most one number of whole seconds is the fewest that cover `d`,
      so `NSample`'s contract fixes its result. */
  lemma LeastWholeUnique(n: nat, m: nat, d: real)
    requires LeastWholeAtLeast(n, d) && LeastWholeAtLeast(m, d)
    ensures n == m
  {
  }

  /** `n_sample`: for a duration `d`, `ceil(d) · 20 + 1` samples (the cast to
      `usize` sends a negative ceiling to 0; an overflowing product panics);
      without one, the length of the recording. */
  function NSample(duration: Option<real>, recorded: nat): (r: nat)
    requires duration.Some? ==> Ceil(duration.value) * CfdRate + 1 <= UsizeMax
    ensures duration.None? ==> r == recorded
    ensures duration.Some? && duration.value >= 0.0 ==>
      (CfdRate as real) * duration.value + 1.0 <= r as real < (CfdRate as real) * duration.value + (CfdRate as real) + 1.0
    ensures duration.Some? && duration.value <= -1.0 ==> r == 1
    ensures duration.Some? ==> r >= 1 && (r - 1) % CfdRate == 0
    ensures duration.Some? ==> LeastWholeAtLeast((r - 1) / CfdRate, duration.value)
  {
    match duration
    case None => recorded
    case Some(d) =>
      var c := Ceil(d);
      var whole: nat := if c < 0 then 0 else c;
      whole * CfdRate + 1
  }

  /** The sequence reversed. */
  function Reverse<T>(s: seq<T>): (r: seq<T>)
    ensures |r| == |s| && forall k :: 0 <= k < |s| ==> r[k] == s[|s| - 1 - k]
  {
    seq(|s|, k requires 0 <= k < |s| => s[|s| - 1 - k])
  }

  /** One pass of the extension: the samples forward, then backward without
      the last one, cut to `n_sample` samples. */
  function Mirror<T>(cs: seq<T>, n_sample: nat): (r: seq<T>)
    requires |cs| > 0
    ensures |r| == Min(n_sample, 2 * |cs| - 1)
    ensures forall j :: 0 <= j < |r| ==> r[j] == if j < |cs| then cs[j] else cs[2 * (|cs| - 1) - j]
  {
    var back := Reverse(cs)[1..];
    assert forall j :: |cs| <= j < 2 * |cs| - 1 ==> (cs + back)[j] == cs[2 * (|cs| - 1) - j];
    (cs + back)[..Min(n_sample, 2 * |cs| - 1)]
  }

  /** Three samples extended to five play `0 1 2 1 0`, and a 1.5 s
      duration asks for 41 samples. */
  lemma ExtensionExample()
    ensures Mirror([0, 1, 2], 5) == [0, 1, 2, 1, 0]
    ensures NSample(Some(1.5), 0) == 41
  {
    var m := Mirror([0, 1, 2], 5);
    assert m[3] == 1 && m[4] == 0;
    assert Ceil(1.5) == 2;
  }

  /** The samples of `cs` at the positions `idx`. */
  function Pick<T>(cs: seq<T>, idx: seq<nat>): (r: seq<T>)
    requires forall j :: 0 <= j < |idx| ==> idx[j] < |cs|
    ensures |r| == |idx| && forall j :: 0 <= j < |idx| ==> r[j] == cs[idx[j]]
  {
    seq(|idx|, j requires 0 <= j < |idx| => cs[idx[j]])
  }

  /** `0, 1, ..., m - 1` */
  function Range(m: nat): (r: seq<nat>)
    ensures |r| == m && forall j :: 0 <= j < m ==> r[j] == j
  {
    seq(m, j requires 0 <= j < m => j)
  }

  /** A walk over the `m` recorded samples: it starts by playing them in
      order and then moves one sample forward or backward at every step. */
  predicate Walk(idx: seq<nat>, m: nat) {
    && |idx| >= m
    && (forall j :: 0 <= j < m ==> idx[j] == j)
    && (forall j :: 0 <= j < |idx| ==> idx[j] < m)
    && (forall j :: 0 <= j < |idx| - 1 ==> idx[j + 1] == idx[j] + 1 || idx[j] == idx[j + 1] + 1)
  }

  /** A pass of the extension keeps a walk a walk. */
  lemma MirrorWalk(idx: seq<nat>, m: nat, n_sample: nat)
    requires m >= 2 && Walk(idx, m)
    ensures Walk(Mirror(idx, n_sample), m) || |Mirror(idx, n_sample)| < m
  {
    var r := Mirror(idx, n_sample);
    var l := |idx|;
    forall j | 0 <= j < |r| - 1
      ensures r[j + 1] == r[j] + 1 || r[j] == r[j + 1] + 1
    {
      if j + 1 < l {
      } else if j + 1 == l {
        assert r[j + 1] == idx[l - 2];
      } else {
        assert r[j] == idx[2 * (l - 1) - j] && r[j + 1] == idx[2 * (l - 1) - j - 1];
      }
    }
  }

  /** Mirroring the picked samples picks the samples at the mirrored
      positions. */
  lemma MirrorPick<T>(cs: seq<T>, idx: seq<nat>, n_sample: nat)
    requires |idx| > 0 && forall j :: 0 <= j < |idx| ==> idx[j] < |cs|
    ensures forall j :: 0 <= j < |Mirror(idx, n_sample)| ==> Mirror(idx, n_sample)[j] < |cs|
    ensures Mirror(Pick(cs, idx), n_sample) == Pick(cs, Mirror(idx, n_sample))
  {
  }

  /** The recorded sample played at output sample `j`: the `m` samples
      forward, then back down without either end, over and over, with a
      period of `2m - 2` samples. */
  function PingPong(m: nat, j: nat): (r: nat)
    requires m >= 2
    ensures r < m
  {
    var k := j % (2 * m - 2);
    if k < m then k else 2 * m - 2 - k
  }

  /** The ping-pong repeats after a period. */
  lemma PingPongPeriodic(m: nat, j: nat)
    requires m >= 2 && j >= 2 * m - 2
    ensures PingPong(m, j) == PingPong(m, j - (2 * m - 2))
  {
    var p := 2 * m - 2;
    var i := j - p;
    DivModUnique(j, p, i / p + 1, i % p);
  }

  /** Two output samples whose positions add up to a whole number of
      periods play the same recorded sample: the ping-pong is symmetric. */
  lemma {:induction false} PingPongMirror(m: nat, i: nat, j: nat, q: nat)
    requires m >= 2 && i + j == q * (2 * m - 2)
    ensures PingPong(m, i) == PingPong(m, j)
    decreases i + j
  {
    var p := 2 * m - 2;
    if i >= p {
      PingPongPeriodic(m, i);
      assert (q - 1) * p == q * p - p;
      PingPongMirror(m, i - p, j, q - 1);
    } else if j >= p {
      PingPongPeriodic(m, j);
      assert (q - 1) * p == q * p - p;
      PingPongMirror(m, i, j - p, q - 1);
    } else {
      if q >= 2 {
        assert q * p == (q - 1) * p + p;
        MulAtLeast(q - 1, p);
        assert false;
      }
      DivModUnique(i, p, 0, i);
      DivModUnique(j, p, 0, j);
    }
  }

  /** The recording is a whole number of `n`-value samples. */
  predicate WholeSamples(v: seq<real>, n: nat) {
    n > 0 && |v| % n == 0
  }

  /** What the extension keeps true: `w` holds whole samples, and they are
      the recorded samples `cs0` picked along a walk `idx`. */
  predicate Extended(w: seq<real>, idx: seq<nat>, cs0: seq<seq<real>>, n: nat, n_sample: nat)
    requires n > 0
  {
    && Walk(idx, |cs0|)
    && |w| == Times(|idx|, n)
    && (forall k :: 0 <= k < |Chunks(w, n)| ==> |Chunks(w, n)[k]| == n)
    && Chunks(w, n) == Pick(cs0, idx)
    && |idx| <= n_sample
    && |cs0| >= 2
    && (forall j :: 0 <= j < |idx| ==> idx[j] == PingPong(|cs0|, j))
    && (|idx| < n_sample ==> (|idx| - 1) % (|cs0| - 1) == 0)
  }

  /** One pass keeps the extension invariant and adds samples. */
  lemma ExtendStep(w: seq<real>, idx: seq<nat>, cs0: seq<seq<real>>, n: nat, n_sample: nat)
    requires n > 0 && |cs0| >= 2 && Extended(w, idx, cs0, n, n_sample) && |idx| < n_sample
    ensures Extended(Flatten(Mirror(Chunks(w, n), n_sample)), Mirror(idx, n_sample), cs0, n, n_sample)
    ensures |Mirror(idx, n_sample)| > |idx|
  {
    var next := Mirror(Chunks(w, n), n_sample);
    ChunksOfFlatten(next, n);
    MirrorPick(cs0, idx, n_sample);
    MirrorWalk(idx, |cs0|, n_sample);
    MirrorPingPong(idx, |cs0|, n_sample);
  }

  /** A pass keeps the ping-pong order: the pass so far ends on a whole
      number of half periods, so playing it backward continues the
      ping-pong. */
  lemma MirrorPingPong(idx: seq<nat>, m: nat, n_sample: nat)
    requires m >= 2 && |idx| >= 1 && |idx| < n_sample && (|idx| - 1) % (m - 1) == 0
    requires forall j :: 0 <= j < |idx| ==> idx[j] == PingPong(m, j)
    ensures var r := Mirror(idx, n_sample);
      (forall j :: 0 <= j < |r| ==> r[j] == PingPong(m, j)) &&
      (|r| < n_sample ==> (|r| - 1) % (m - 1) == 0)
  {
    var r := Mirror(idx, n_sample);
    var l := |idx|;
    var q := (l - 1) / (m - 1);
    assert l - 1 == q * (m - 1);
    forall j | l <= j < |r|
      ensures r[j] == PingPong(m, j)
    {
      var i := 2 * (l - 1) - j;
      assert i + j == q * (2 * m - 2);
      PingPongMirror(m, i, j, q);
    }
    if |r| < n_sample {
      assert |r| - 1 == 2 * q * (m - 1);
      DivModUnique(|r| - 1, m - 1, 2 * q, 0);
    }
  }

  /** For `n > 0`, `a · n < b · n` exactly when `a < b`. */
  lemma TimesOrder(a: nat, b: nat, n: nat)
    requires n > 0
    ensures a < b <==> Times(a, n) < Times(b, n)
  {
    if a < b {
      assert b * n == a * n + (b - a) * n;
      MulAtLeast(b - a, n);
    } else {
      assert a * n == b * n + (a - b) * n;
    }
  }

  /** The extension loop: while fewer than `n_sample` samples of `n` values
      are held, one pass forward-then-backward. It makes progress only on a
      recording of at least two samples (with one it loops for ever, and
      with `n == 0` it never starts). The ghost `idx` says which recorded
      sample each output sample is. */
  method Extend(v: seq<real>, n: nat, n_sample: nat) returns (w: seq<real>, ghost idx: seq<nat>)
    requires n > 0 ==> WholeSamples(v, n) && (Times(n_sample, n) <= |v| || |v| >= 2 * n)
    ensures n == 0 || Times(n_sample, n) <= |v| ==> w == v
    ensures n > 0 && Times(n_sample, n) > |v| ==>
      && |w| == Times(n_sample, n)
      && |idx| == n_sample
      && Walk(idx, |Chunks(v, n)|)
      && Chunks(w, n) == Pick(Chunks(v, n), idx)
      && forall j :: 0 <= j < n_sample ==> idx[j] == PingPong(|Chunks(v, n)|, j)
  {
    w := v;
    idx := [];
    if n == 0 || Times(n_sample, n) <= |v| {
      return;
    }
    ghost var cs0 := Chunks(v, n);
    WholeChunksOf(v, n);
    TimesSucc(1, n);
    TimesOrder(1, |cs0|, n);
    TimesOrder(|cs0|, n_sample, n);
    idx := Range(|cs0|);
    assert Chunks(w, n) == Pick(cs0, idx);
    forall j | 0 <= j < |idx|
      ensures idx[j] == PingPong(|cs0|, j)
    {
      DivModUnique(j, 2 * |cs0| - 2, 0, j);
    }
    DivModUnique(|cs0| - 1, |cs0| - 1, 1, 0);
    while Times(n_sample, n) > |w|
      invariant Extended(w, idx, cs0, n, n_sample)
      decreases n_sample - |idx|
    {
      TimesOrder(|idx|, n_sample, n);
      ExtendStep(w, idx, cs0, n, n_sample);
      w := Flatten(Mirror(Chunks(w, n), n_sample));
      idx := Mirror(idx, n_sample);
    }
    TimesOrder(|idx|, n_sample, n);
  }
}
