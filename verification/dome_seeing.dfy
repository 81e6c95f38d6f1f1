/**
 The dome-seeing time series: CFD optical-path-difference frames ordered by
 their time stamps, played forward then backward again and again (a
 ping-pong counter), and interpolated linearly between consecutive frames
 at `upsampling` steps per frame. The frames' file contents are given with
 the frames.
 */
module DomeSeeing {
  import opened Common
  import Sorting
  import CfdLoads
  import WindLoadsBuilder

  /** An OPD frame: its values inside the mask, and the mask. */
  datatype Opd = Opd(mean: real, values: seq<real>, mask: seq<bool>)

  /** `Opd::default()` */
  function DefaultOpd(): Opd {
    Opd(0.0, [], [])
  }

  /** A recorded frame and its time stamp (parsed from its file name). */
  datatype Frame = Frame(timeStamp: real, opd: Opd)

  datatype Mapping = Whole | Masked

  datatype DomeSeeingError = OutOfBounds(idx: nat)

  /** `iter.skip(1)` */
  function Skip1<T>(s: seq<T>): seq<T> {
    if |s| == 0 then [] else s[1..]
  }

  /** One period of the counter: `(0..n).chain((0..n).skip(1).rev().skip(1))`. */
  function Period(n: nat): (r: seq<nat>)
    ensures |r| == (if n <= 1 then n else 2 * n - 2)
    ensures forall j :: 0 <= j < |r| ==> r[j] == (if j < n then j else 2 * (n - 1) - j)
  {
    var range := WindLoadsBuilder.Range(n);
    var back := Skip1(WindLoadsBuilder.Reverse(Skip1(range)));
    assert n >= 2 ==> forall j :: 0 <= j < |back| ==> back[j] == n - 2 - j;
    range + back
  }

  /** The period of the counter is the ping-pong extension of the frame
      indices, cut before it comes back to the first frame. */
  lemma PeriodIsMirror(n: nat)
    requires n >= 2
    ensures Period(n) == WindLoadsBuilder.Mirror(WindLoadsBuilder.Range(n), 2 * n - 2)
  {
  }

  /** The counter moves one frame forward or backward at every step,
      including from the end of a period to the start of the next. */
  lemma PeriodPingPong(n: nat, j: nat)
    requires n >= 2 && j < |Period(n)|
    ensures var p := Period(n); var k := (j + 1) % |p|;
      p[k] == p[j] + 1 || p[j] == p[k] + 1
  {
    var p := Period(n);
    if j + 1 < |p| {
      DivModUnique(j + 1, |p|, 0, j + 1);
    } else {
      DivModUnique(j + 1, |p|, 1, 0);
    }
  }

  /** The `t`-th value of the counter (`cycle`, cut by `take` when given). */
  function CounterAt(n: nat, take: Option<nat>, t: nat): (r: Option<nat>)
    ensures r.None? <==> n == 0 || (take.Some? && t >= take.value)
    ensures r.Some? ==> r.value < n
    ensures r.Some? ==> r.value == Period(n)[t % |Period(n)|]
  {
    var p := Period(n);
    if |p| == 0 || (take.Some? && t >= take.value) then None
    else Some(p[t % |p|])
  }

  /** The counter starts over after each period. */
  lemma CounterPeriodic(n: nat, t: nat)
    requires n > 0
    ensures CounterAt(n, None, t + |Period(n)|) == CounterAt(n, None, t)
  {
    var p := |Period(n)|;
    DivModUnique(t + p, p, t / p + 1, t % p);
  }

  /** The series: the frames in order, how many counter values are used,
      the step `i`, and the two frames interpolated between. */
  datatype DomeSeeing = DomeSeeing(upsampling: nat, data: seq<Frame>, take: Option<nat>,
                                   consumed: nat, i: nat, y1: Opd, y2: Opd, mapping: Mapping)

  function TimeStamp(f: Frame): real {
    f.timeStamp
  }

  /** `DomeSeeing::new`: the frames sorted by time stamp; the first frame of
      the counter, if any, is loaded as `y2`. */
  function New(frames: seq<Frame>, upsampling: nat, take: Option<nat>): (ds: DomeSeeing)
    ensures Sorting.SortedBy(ds.data, TimeStamp) && multiset(ds.data) == multiset(frames)
    ensures ds.i == 0 && ds.y1 == DefaultOpd() && ds.mapping == Whole && ds.consumed == 1
    ensures ds.y2 == (if |frames| > 0 && take != Some(0) then ds.data[0].opd else DefaultOpd())
  {
    var data := Sorting.SortBy(frames, TimeStamp);
    assert |data| > 0 ==> 0 % |Period(|data|)| == 0;
    var y2 := match CounterAt(|data|, take, 0)
      case Some(c) => data[c].opd
      case None => DefaultOpd();
    DomeSeeing(upsampling, data, take, 1, 0, DefaultOpd(), y2, Whole)
  }

  /** `masked`: the OPD is returned as the values inside the mask. */
  function WithMasked(ds: DomeSeeing): (r: DomeSeeing)
    ensures r == ds.(mapping := Masked)
  {
    ds.(mapping := Masked)
  }

  /** `get(idx)`: the frame at `idx`, or `OutOfBounds`. */
  function Get(ds: DomeSeeing, idx: nat): (r: Result<Opd, DomeSeeingError>)
    ensures r.Err? <==> idx >= |ds.data|
    ensures r.Err? ==> r.error == OutOfBounds(idx)
    ensures r.Ok? ==> r.value == ds.data[idx].opd
  {
    if idx < |ds.data| then Ok(ds.data[idx].opd) else Err(OutOfBounds(idx))
  }

  /** The counter never asks for a frame that is not there. */
  lemma CounterInBounds(ds: DomeSeeing)
    ensures CounterAt(|ds.data|, ds.take, ds.consumed).Some? ==>
      Get(ds, CounterAt(|ds.data|, ds.take, ds.consumed).value).Ok?
  {
  }

  /** The common head of `next`: on a frame boundary the frames move down
      and the next one is loaded (or the series ends); then the values are
      interpolated at `alpha = (i mod upsampling) / upsampling`. */
  function Advance(ds: DomeSeeing): (r: (DomeSeeing, Option<seq<real>>))
    requires ds.upsampling > 0
    ensures ds.i % ds.upsampling == 0 ==> r.0.y1 == ds.y2 && r.0.consumed == ds.consumed + 1
    ensures ds.i % ds.upsampling != 0 ==> r.0 == ds
    ensures r.1.None? <==> ds.i % ds.upsampling == 0 && CounterAt(|ds.data|, ds.take, ds.consumed).None?
    ensures r.0.i == ds.i && r.0.data == ds.data && r.0.mapping == ds.mapping && r.0.upsampling == ds.upsampling
    ensures r.1.Some? ==> r.1.value == CfdLoads.Lerp(r.0.y1.values, r.0.y2.values, Alpha(ds))
  {
    var ds1 := if ds.i % ds.upsampling == 0 then ds.(y1 := ds.y2, y2 := ds.y1, consumed := ds.consumed + 1) else ds;
    if ds.i % ds.upsampling == 0 && CounterAt(|ds.data|, ds.take, ds.consumed).None? then (ds1, None)
    else
      var ds2 := if ds.i % ds.upsampling == 0 then
        ds1.(y2 := ds.data[CounterAt(|ds.data|, ds.take, ds.consumed).value].opd) else ds1;
      (ds2, Some(CfdLoads.Lerp(ds2.y1.values, ds2.y2.values, Alpha(ds))))
  }

  /** The interpolation weight of the current step: the fraction of the
      way from frame `i / upsampling` to the next, as the CFD loads' hold
      computes it. */
  function Alpha(ds: DomeSeeing): (a: real)
    requires ds.upsampling > 0
    ensures 0.0 <= a < 1.0
  {
    CfdLoads.Update(CfdLoads.NewFoh(ds.upsampling), ds.i).u
  }

  /** On a frame boundary the weight is zero. */
  lemma AlphaOnFrame(ds: DomeSeeing)
    requires ds.upsampling > 0 && ds.i % ds.upsampling == 0
    ensures Alpha(ds) == 0.0
  {
    CfdLoads.UpdateOnSample(CfdLoads.NewFoh(ds.upsampling), ds.i / ds.upsampling);
    assert (ds.i / ds.upsampling) * ds.upsampling == ds.i;
  }

  /** The whole OPD: zeros outside the mask, the values inside. */
  function WholeOpd(mask: seq<bool>, values: seq<real>): (r: seq<real>)
    ensures |r| == |mask|
    ensures forall k :: 0 <= k < |mask| && !mask[k] ==> r[k] == 0.0
  {
    ScatterInto(Repeat(0.0, |mask|), mask, values)
  }

  /** Reading the whole OPD inside the mask gives the values back when
      they fill the mask. */
  lemma WholeOpdSelect(mask: seq<bool>, values: seq<real>)
    requires |values| == CountTrue(mask)
    ensures Select(WholeOpd(mask, values), mask) == values
  {
    ScatterIntoSelect(Repeat(0.0, |mask|), mask, values);
  }

  /** What a mapping hands out for interpolated values: the values
      themselves when masked, scattered into the mask when whole. */
  function Output(mapping: Mapping, mask: seq<bool>, values: seq<real>): seq<real> {
    match mapping
    case Masked => values
    case Whole => WholeOpd(mask, values)
  }

  /** `next`, as written: the `Whole` mapping scatters the values into the
      mask and moves to the next step; the `Masked` mapping returns the
      values and stays at the same step. */
  function Next(ds: DomeSeeing): (r: (DomeSeeing, Option<seq<real>>))
    requires ds.upsampling > 0
    ensures r.0.i == (if ds.mapping == Whole && r.1.Some? then ds.i + 1 else ds.i)
    ensures r.1.None? <==> ds.i % ds.upsampling == 0 && CounterAt(|ds.data|, ds.take, ds.consumed).None?
    ensures r.0.consumed == ds.consumed + (if ds.i % ds.upsampling == 0 then 1 else 0)
    ensures r.1.Some? ==> r.1 == Some(Output(ds.mapping, Advance(ds).0.y1.mask, Advance(ds).1.value))
  {
    var (ds1, values) := Advance(ds);
    if values.None? then (ds1, None)
    else match ds.mapping
      case Masked => (ds1, values)
      case Whole => (ds1.(i := ds1.i + 1), Some(WholeOpd(ds1.y1.mask, values.value)))
  }

  /** As written, a masked series never interpolates: it stays at step 0,
      so every call loads a new frame. With `upsampling = 2` and three
      frames, two calls use two counter values where one was meant. */
  lemma MaskedSkipsInterpolation(frames: seq<Frame>)
    requires |frames| == 3
    ensures var ds0 := WithMasked(New(frames, 2, None));
      var ds1 := Next(ds0).0;
      var ds2 := Next(ds1).0;
      ds2.consumed == 3 && ds2.i == 0
  {
  }

  /** `next` with the step moved on by both mappings. */
  function NextCorrected(ds: DomeSeeing): (r: (DomeSeeing, Option<seq<real>>))
    requires ds.upsampling > 0
    ensures r.1.Some? ==> r.0.i == ds.i + 1
    ensures r.1.None? <==> ds.i % ds.upsampling == 0 && CounterAt(|ds.data|, ds.take, ds.consumed).None?
    ensures r.0.consumed == ds.consumed + (if ds.i % ds.upsampling == 0 then 1 else 0)
    ensures r.1.Some? ==> r.1 == Some(Output(ds.mapping, Advance(ds).0.y1.mask, Advance(ds).1.value))
  {
    var (ds1, values) := Advance(ds);
    if values.None? then (ds1, None)
    else match ds.mapping
      case Masked => (ds1.(i := ds1.i + 1), values)
      case Whole => (ds1.(i := ds1.i + 1), Some(WholeOpd(ds1.y1.mask, values.value)))
  }

  /** Corrected, a masked series loads one frame per `upsampling` calls, as
      the whole one does: two calls at `upsampling = 2` use one counter
      value. */
  lemma MaskedInterpolatesCorrected(frames: seq<Frame>)
    requires |frames| == 3
    ensures var ds0 := WithMasked(New(frames, 2, None));
      var ds1 := NextCorrected(ds0).0;
      var ds2 := NextCorrected(ds1).0;
      ds2.consumed == 2 && ds2.i == 2
  {
  }

  /** Corrected, both mappings give the same OPD: the masked one is the
      whole one read inside the mask, when the frame's values fill its
      mask. */
  lemma MappingsAgree(ds: DomeSeeing)
    requires ds.upsampling > 0
    requires var a := Advance(ds).0; |a.y1.values| == |a.y2.values| == CountTrue(a.y1.mask)
    ensures NextCorrected(ds.(mapping := Whole)).1.Some? <==> NextCorrected(ds.(mapping := Masked)).1.Some?
    ensures NextCorrected(ds.(mapping := Whole)).1.Some? ==>
      Select(NextCorrected(ds.(mapping := Whole)).1.value, Advance(ds).0.y1.mask) == NextCorrected(ds.(mapping := Masked)).1.value
  {
    var a := Advance(ds);
    assert Advance(ds.(mapping := Whole)).1 == a.1;
    assert Advance(ds.(mapping := Masked)).1 == a.1;
    assert Advance(ds.(mapping := Whole)).0.y1 == a.0.y1;
    if a.1.Some? {
      WholeOpdSelect(a.0.y1.mask, a.1.value);
    }
  }

  /** On a frame boundary the output is the frame just moved down, exactly. */
  lemma NextOnFrame(ds: DomeSeeing)
    requires ds.upsampling > 0 && ds.i % ds.upsampling == 0 && Next(ds).1.Some?
    requires |ds.y2.values| <= |ds.data[CounterAt(|ds.data|, ds.take, ds.consumed).value].opd.values|
    ensures Advance(ds).1.value == ds.y2.values
  {
    var v := Advance(ds).1.value;
    AlphaOnFrame(ds);
    assert |v| == |ds.y2.values|;
  }
}
