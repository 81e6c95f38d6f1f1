/**
 The builder of the FEM's discrete state space model: the inputs and
 outputs it is reduced to, each with an optional transform; the modes kept
 by eigenfrequency; and the truncation of the modes by Hankel singular
 value. Frequencies are in hertz here: the source works in radians per
 second, a factor `2π` on both sides of every comparison.
 */
module StateSpaceBuilder {
  import opened Common

  /** The FEM as far as the builder sees it: the eigenfrequencies and the
      proportional damping of its modes. */
  datatype Fem = Fem(eigenFrequencies: seq<real>, damping: seq<real>)

  predicate FemValid(fem: Fem) {
    |fem.damping| == |fem.eigenFrequencies|
  }

  /** An input or output of the FEM, with the number of columns (inputs)
      or rows (outputs) its block of the modal matrices has. */
  datatype Io = Io(name: string, width: nat)

  /** A transform applied to an input or output: only the size it maps to
      matters here. */
  type Transform = nat

  datatype Error = MissingArguments(argument: string) | FemIo(name: string)

  /** `DiscreteStateSpace` */
  datatype Builder = Builder(
    sampling: Option<real>,
    fem: Option<Fem>,
    zeta: Option<real>,
    eigenFrequencies: Option<seq<(nat, real)>>,
    maxEigenFrequency: Option<real>,
    hsvThreshold: Option<real>,
    hsvLowerBound: Option<real>,
    useStaticGain: bool,
    ins: seq<Io>,
    outs: seq<Io>,
    insTransform: seq<Option<Transform>>,
    outsTransform: seq<Option<Transform>>)

  /** Every input and output has its transform slot. */
  predicate Paired(b: Builder) {
    |b.ins| == |b.insTransform| && |b.outs| == |b.outsTransform|
  }

  /** `From<FEM>`: the default builder around a FEM. */
  function FromFem(fem: Fem): (b: Builder)
    ensures Paired(b) && b.fem == Some(fem)
    ensures b.ins == b.outs == [] && b.sampling.None? && b.hsvThreshold.None? && b.maxEigenFrequency.None?
  {
    Builder(None, Some(fem), None, None, None, None, None, false, [], [], [], [])
  }

  /** The setters each set their own field only. */
  function Sampling(b: Builder, s: real): (r: Builder)
    ensures r.sampling == Some(s) && r == b.(sampling := r.sampling)
  {
    b.(sampling := Some(s))
  }

  function ProportionalDamping(b: Builder, z: real): (r: Builder)
    ensures r.zeta == Some(z) && r == b.(zeta := r.zeta)
  {
    b.(zeta := Some(z))
  }

  function MaxEigenFrequency(b: Builder, f: real): (r: Builder)
    ensures r.maxEigenFrequency == Some(f) && r == b.(maxEigenFrequency := r.maxEigenFrequency)
  {
    b.(maxEigenFrequency := Some(f))
  }

  function TruncateHankelSingularValues(b: Builder, t: real): (r: Builder)
    ensures r.hsvThreshold == Some(t) && r == b.(hsvThreshold := r.hsvThreshold)
  {
    b.(hsvThreshold := Some(t))
  }

  function HankelFrequencyLowerBound(b: Builder, f: real): (r: Builder)
    ensures r.hsvLowerBound == Some(f) && r == b.(hsvLowerBound := r.hsvLowerBound)
  {
    b.(hsvLowerBound := Some(f))
  }

  function EigenFrequencies(b: Builder, ef: seq<(nat, real)>): (r: Builder)
    ensures r.eigenFrequencies == Some(ef) && r == b.(eigenFrequencies := r.eigenFrequencies)
  {
    b.(eigenFrequencies := Some(ef))
  }

  /** `ins`/`ins_with`: one input, with its transform slot. */
  function Ins(b: Builder, io: Io, t: Option<Transform>): (r: Builder)
    ensures r.ins == b.ins + [io] && r.insTransform == b.insTransform + [t]
    ensures r == b.(ins := r.ins, insTransform := r.insTransform)
  {
    b.(ins := b.ins + [io], insTransform := b.insTransform + [t])
  }

  /** `outs`/`outs_with` */
  function Outs(b: Builder, io: Io, t: Option<Transform>): (r: Builder)
    ensures r.outs == b.outs + [io] && r.outsTransform == b.outsTransform + [t]
    ensures r == b.(outs := r.outs, outsTransform := r.outsTransform)
  {
    b.(outs := b.outs + [io], outsTransform := b.outsTransform + [t])
  }

  /** The FEM inputs or outputs of the given names, looked up in the FEM's
      nomenclature by `lookup`: the first unknown name is an error. */
  function Resolve(names: seq<string>, lookup: string -> Option<Io>): (r: Result<seq<Io>, Error>)
    ensures r.Ok? <==> forall k :: 0 <= k < |names| ==> lookup(names[k]).Some?
    ensures r.Ok? ==> |r.value| == |names| && forall k :: 0 <= k < |names| ==> r.value[k] == lookup(names[k]).value
    ensures r.Err? ==> exists k :: 0 <= k < |names| && lookup(names[k]).None? && r.error == FemIo(names[k])
  {
    if |names| == 0 then Ok([])
    else if lookup(names[0]).None? then Err(FemIo(names[0]))
    else
      var rest := Resolve(names[1..], lookup);
      if rest.Err? then
        var k :| 0 <= k < |names[1..]| && lookup(names[1..][k]).None? && rest.error == FemIo(names[1..][k]);
        assert names[k + 1] == names[1..][k];
        Err(rest.error)
      else
        assert forall k :: 1 <= k < |names| ==> names[k] == names[1..][k - 1];
        Ok([lookup(names[0]).value] + rest.value)
  }

  /** `ins_by_name`/`ins_with_by_name`: the inputs of the given names, each
      with its transform. Names and transforms are zipped, so names past
      the last transform are dropped; `ins_by_name` passes one `None` per
      name. */
  function InsByName(b: Builder, names: seq<string>, ts: seq<Option<Transform>>, lookup: string -> Option<Io>): (r: Result<Builder, Error>)
    ensures var n := Min(|names|, |ts|);
      && (r.Ok? <==> Resolve(names[..n], lookup).Ok?)
      && (r.Ok? ==> r.value == b.(ins := b.ins + Resolve(names[..n], lookup).value, insTransform := b.insTransform + ts[..n]))
      && (r.Err? ==> r.error == Resolve(names[..n], lookup).error)
  {
    var n := Min(|names|, |ts|);
    var ios := Resolve(names[..n], lookup);
    if ios.Err? then Err(ios.error)
    else Ok(b.(ins := b.ins + ios.value, insTransform := b.insTransform + ts[..n]))
  }

  /** `outs_by_name`/`outs_with_by_name` */
  function OutsByName(b: Builder, names: seq<string>, ts: seq<Option<Transform>>, lookup: string -> Option<Io>): (r: Result<Builder, Error>)
    ensures var n := Min(|names|, |ts|);
      && (r.Ok? <==> Resolve(names[..n], lookup).Ok?)
      && (r.Ok? ==> r.value == b.(outs := b.outs + Resolve(names[..n], lookup).value, outsTransform := b.outsTransform + ts[..n]))
      && (r.Err? ==> r.error == Resolve(names[..n], lookup).error)
  {
    var n := Min(|names|, |ts|);
    var ios := Resolve(names[..n], lookup);
    if ios.Err? then Err(ios.error)
    else Ok(b.(outs := b.outs + ios.value, outsTransform := b.outsTransform + ts[..n]))
  }

  /** `ins_by_name`: every name is added, without a transform, exactly when
      every name is one of the FEM's inputs. */
  lemma InsByNameWithoutTransforms(b: Builder, names: seq<string>, lookup: string -> Option<Io>)
    ensures var r := InsByName(b, names, Repeat<Option<Transform>>(None, |names|), lookup);
      && (r.Ok? <==> forall k :: 0 <= k < |names| ==> lookup(names[k]).Some?)
      && (r.Ok? ==> |r.value.ins| == |b.ins| + |names| && r.value.insTransform == b.insTransform + Repeat<Option<Transform>>(None, |names|))
  {
    assert names[..|names|] == names;
    assert Repeat<Option<Transform>>(None, |names|)[..|names|] == Repeat<Option<Transform>>(None, |names|);
  }

  /** Every way of adding inputs or outputs keeps each one paired with its
      transform. */
  lemma AddingKeepsPaired(b: Builder, io: Io, t: Option<Transform>, names: seq<string>, ts: seq<Option<Transform>>, lookup: string -> Option<Io>)
    requires Paired(b)
    ensures Paired(Ins(b, io, t)) && Paired(Outs(b, io, t))
    ensures InsByName(b, names, ts, lookup).Ok? ==> Paired(InsByName(b, names, ts, lookup).value)
    ensures OutsByName(b, names, ts, lookup).Ok? ==> Paired(OutsByName(b, names, ts, lookup).value)
  {
  }

  /** The frequencies at most `max`. */
  function CountAtMost(fs: seq<real>, max: real): (n: nat)
    ensures n <= |fs|
  {
    if |fs| == 0 then 0 else (if fs[0] <= max then 1 else 0) + CountAtMost(fs[1..], max)
  }

  /** Raising the cut-off never loses a mode. */
  lemma {:induction false} CountAtMostMonotone(fs: seq<real>, a: real, b: real)
    requires a <= b
    ensures CountAtMost(fs, a) <= CountAtMost(fs, b)
  {
    if |fs| > 0 {
      CountAtMostMonotone(fs[1..], a, b);
    }
  }

  /** With the frequencies in increasing order, as a FEM lists them, the
      modes at most `max` are a leading run. */
  lemma {:induction false} CountAtMostSorted(fs: seq<real>, max: real)
    requires forall i, j :: 0 <= i <= j < |fs| ==> fs[i] <= fs[j]
    ensures forall k :: 0 <= k < |fs| ==> (fs[k] <= max <==> k < CountAtMost(fs, max))
  {
    if |fs| > 0 {
      CountAtMostSorted(fs[1..], max);
      forall k | 0 <= k < |fs| ensures fs[k] <= max <==> k < CountAtMost(fs, max) {
        if k > 0 {
          assert fs[k] == fs[1..][k - 1];
        }
      }
    }
  }

  /** The modal properties: eigenfrequencies with their overrides, the
      number of modes and the damping of each. */
  datatype Properties = Properties(w: seq<real>, nModes: nat, zeta: seq<real>)

  /** The frequencies with the overrides `(i, v)` written in, in order. */
  function Override(w: seq<real>, ef: seq<(nat, real)>): (r: seq<real>)
    requires forall k :: 0 <= k < |ef| ==> ef[k].0 < |w|
    ensures |r| == |w|
    decreases |ef|
  {
    if |ef| == 0 then w
    else
      var r := Override(w, ef[..|ef| - 1]);
      r[ef[|ef| - 1].0 := ef[|ef| - 1].1]
  }

  /** A frequency no override names keeps its FEM value; one that is named
      takes the value of its last override. */
  lemma {:induction false} OverrideAt(w: seq<real>, ef: seq<(nat, real)>, i: nat)
    requires forall k :: 0 <= k < |ef| ==> ef[k].0 < |w|
    requires i < |w|
    ensures (forall k :: 0 <= k < |ef| ==> ef[k].0 != i) ==> Override(w, ef)[i] == w[i]
    ensures forall k ::
      (0 <= k < |ef| && ef[k].0 == i && (forall k' :: k < k' < |ef| ==> ef[k'].0 != i)) ==> Override(w, ef)[i] == ef[k].1
    decreases |ef|
  {
    if |ef| > 0 {
      var init := ef[..|ef| - 1];
      assert forall k :: 0 <= k < |init| ==> init[k] == ef[k];
      OverrideAt(w, init, i);
    }
  }

  /** No override names frequency `i`. */
  predicate Untouched(ef: Option<seq<(nat, real)>>, i: int) {
    ef.None? || forall k :: 0 <= k < |ef.value| ==> ef.value[k].0 != i
  }

  /** Override `k` is the last one to name its frequency. */
  predicate LastOverride(ef: seq<(nat, real)>, k: int)
    requires 0 <= k < |ef|
  {
    forall k' :: k < k' < |ef| ==> ef[k'].0 != ef[k].0
  }

  /** Every frequency keeps its FEM value unless an override names it, and
      then takes its last override. */
  predicate OverridesAt(w: seq<real>, ef: seq<(nat, real)>)
    requires forall k :: 0 <= k < |ef| ==> ef[k].0 < |w|
  {
    && (forall i :: 0 <= i < |w| && Untouched(Some(ef), i) ==> Override(w, ef)[i] == w[i])
    && (forall k :: 0 <= k < |ef| && LastOverride(ef, k) ==> Override(w, ef)[ef[k].0] == ef[k].1)
  }

  lemma OverridesHold(w: seq<real>, ef: seq<(nat, real)>)
    requires forall k :: 0 <= k < |ef| ==> ef[k].0 < |w|
    ensures OverridesAt(w, ef)
  {
    forall i | 0 <= i < |w| {
      OverrideAt(w, ef, i);
    }
    forall k | 0 <= k < |ef| && LastOverride(ef, k) ensures Override(w, ef)[ef[k].0] == ef[k].1 {
      OverrideAt(w, ef, ef[k].0);
    }
  }

  /** With the FEM's frequencies in increasing order, the modes kept under
      a maximum eigenfrequency are exactly those at most the maximum. */
  lemma PropertiesCut(b: Builder)
    requires b.fem.Some? && b.maxEigenFrequency.Some?
    requires b.eigenFrequencies.Some? ==>
      forall k :: 0 <= k < |b.eigenFrequencies.value| ==> b.eigenFrequencies.value[k].0 < |b.fem.value.eigenFrequencies|
    requires var fs := b.fem.value.eigenFrequencies; forall i, j :: 0 <= i <= j < |fs| ==> fs[i] <= fs[j]
    ensures GetProperties(b).Ok?
    ensures forall k :: 0 <= k < |b.fem.value.eigenFrequencies| ==>
      (b.fem.value.eigenFrequencies[k] <= b.maxEigenFrequency.value <==> k < GetProperties(b).value.nModes)
  {
    CountAtMostSorted(b.fem.value.eigenFrequencies, b.maxEigenFrequency.value);
  }

  /** `properties`: an error without a FEM; otherwise, the number of modes
      is the count of FEM eigenfrequencies up to the maximum when one is
      set (overrides do not change it), and all modes otherwise. An override
      index past the modes panics. */
  function GetProperties(b: Builder): (r: Result<Properties, Error>)
    requires b.fem.Some? && b.eigenFrequencies.Some? ==>
      forall k :: 0 <= k < |b.eigenFrequencies.value| ==> b.eigenFrequencies.value[k].0 < |b.fem.value.eigenFrequencies|
    ensures r.Err? <==> b.fem.None?
    ensures r.Err? ==> r.error == MissingArguments("FEM")
    ensures r.Ok? ==> |r.value.w| == |b.fem.value.eigenFrequencies|
    ensures r.Ok? ==> r.value.nModes <= |r.value.w|
    ensures r.Ok? && b.maxEigenFrequency.None? ==> r.value.nModes == |b.fem.value.eigenFrequencies|
    ensures r.Ok? && b.zeta.Some? ==> r.value.zeta == Repeat(b.zeta.value, r.value.nModes)
    ensures r.Ok? && b.zeta.None? ==> r.value.zeta == b.fem.value.damping
    ensures r.Ok? && b.maxEigenFrequency.Some? ==>
      r.value.nModes == CountAtMost(b.fem.value.eigenFrequencies, b.maxEigenFrequency.value)
    ensures r.Ok? ==> forall i :: 0 <= i < |r.value.w| && Untouched(b.eigenFrequencies, i) ==>
      r.value.w[i] == b.fem.value.eigenFrequencies[i]
    ensures r.Ok? && b.eigenFrequencies.Some? ==> forall k :: 0 <= k < |b.eigenFrequencies.value| && LastOverride(b.eigenFrequencies.value, k) ==>
      r.value.w[b.eigenFrequencies.value[k].0] == b.eigenFrequencies.value[k].1
  {
    if b.fem.None? then Err(MissingArguments("FEM"))
    else
      var fem := b.fem.value;
      assert b.eigenFrequencies.Some? ==> OverridesAt(fem.eigenFrequencies, b.eigenFrequencies.value) by {
        if b.eigenFrequencies.Some? {
          OverridesHold(fem.eigenFrequencies, b.eigenFrequencies.value);
        }
      }
      var w := if b.eigenFrequencies.Some? then Override(fem.eigenFrequencies, b.eigenFrequencies.value) else fem.eigenFrequencies;
      var n := if b.maxEigenFrequency.Some? then CountAtMost(fem.eigenFrequencies, b.maxEigenFrequency.value) else |fem.eigenFrequencies|;
      var zeta := if b.zeta.Some? then Repeat(b.zeta.value, n) else fem.damping;
      Ok(Properties(w, n, zeta))
  }

  /** The width an input or output takes in the modal matrices: its
      transform's, when it has one. */
  function Width(io: Io, t: Option<Transform>): nat {
    if t.Some? then t.value else io.width
  }

  /** The width taken by the first `k` inputs (or outputs). */
  function Offset(ios: seq<Io>, ts: seq<Option<Transform>>, k: nat): nat
    requires |ts| == |ios| && k <= |ios|
  {
    if k == 0 then 0 else Offset(ios, ts, k - 1) + Width(ios[k - 1], ts[k - 1])
  }

  /** `in2mode`/`mode2out`: the ranges `[s, s + l)` handed out, in order,
      to the inputs (or outputs) from `start`: input `k` takes the `l` slots
      after those of the inputs before it. */
  function Ranges(ios: seq<Io>, ts: seq<Option<Transform>>, start: nat): (r: seq<(nat, nat)>)
    requires |ts| == |ios|
    ensures |r| == |ios|
    ensures forall k {:trigger r[k]} :: 0 <= k < |r| ==> r[k] == (start + Offset(ios, ts, k), start + Offset(ios, ts, k + 1))
    decreases |ios|
  {
    if |ios| == 0 then []
    else
      var l := Width(ios[0], ts[0]);
      OffsetTails(ios, ts);
      [(start, start + l)] + Ranges(ios[1..], ts[1..], start + l)
  }

  /** The offsets past the first input are those of the other inputs,
      shifted by its width. */
  lemma OffsetTails(ios: seq<Io>, ts: seq<Option<Transform>>)
    requires |ts| == |ios| > 0
    ensures forall k :: 0 < k <= |ios| ==>
      Offset(ios, ts, k) == Width(ios[0], ts[0]) + Offset(ios[1..], ts[1..], k - 1)
  {
    forall k | 0 < k <= |ios| ensures Offset(ios, ts, k) == Width(ios[0], ts[0]) + Offset(ios[1..], ts[1..], k - 1) {
      OffsetTail(ios, ts, k);
    }
  }

  lemma {:induction false} OffsetTail(ios: seq<Io>, ts: seq<Option<Transform>>, k: nat)
    requires |ts| == |ios| && 0 < k <= |ios|
    ensures Offset(ios, ts, k) == Width(ios[0], ts[0]) + Offset(ios[1..], ts[1..], k - 1)
    decreases k
  {
    if k > 1 {
      OffsetTail(ios, ts, k - 1);
      assert ios[1..][k - 2] == ios[k - 1] && ts[1..][k - 2] == ts[k - 1];
    }
  }

  /** Offsets grow with the number of inputs counted. */
  lemma {:induction false} OffsetMono(ios: seq<Io>, ts: seq<Option<Transform>>, a: nat, b: nat)
    requires |ts| == |ios| && a <= b <= |ios|
    ensures Offset(ios, ts, a) <= Offset(ios, ts, b)
    decreases b
  {
    if a < b {
      OffsetMono(ios, ts, a, b - 1);
    }
  }

  /** The total width of the inputs (or outputs). */
  function TotalWidth(ios: seq<Io>, ts: seq<Option<Transform>>): nat
    requires |ts| == |ios|
    decreases |ios|
  {
    if |ios| == 0 then 0 else Width(ios[0], ts[0]) + TotalWidth(ios[1..], ts[1..])
  }

  /** Counting the widths from the back or from the front gives the same
      total. */
  lemma {:induction false} OffsetTotal(ios: seq<Io>, ts: seq<Option<Transform>>)
    requires |ts| == |ios|
    ensures Offset(ios, ts, |ios|) == TotalWidth(ios, ts)
    decreases |ios|
  {
    if |ios| > 0 {
      OffsetTotal(ios[1..], ts[1..]);
      OffsetTail(ios, ts, |ios|);
    }
  }

  /** The last range ends where the total width says. */
  lemma RangesEnd(ios: seq<Io>, ts: seq<Option<Transform>>, start: nat)
    requires |ts| == |ios| && |ios| > 0
    ensures Ranges(ios, ts, start)[|ios| - 1].1 == start + TotalWidth(ios, ts)
  {
    OffsetTotal(ios, ts);
  }

  /** The ranges cover `[start, start + total)`. */
  lemma RangesCover(ios: seq<Io>, ts: seq<Option<Transform>>, start: nat, j: nat) returns (k: nat)
    requires |ts| == |ios| && start <= j < start + TotalWidth(ios, ts)
    ensures k < |ios| && Ranges(ios, ts, start)[k].0 <= j < Ranges(ios, ts, start)[k].1
  {
    var r := Ranges(ios, ts, start);
    RangesEnd(ios, ts, start);
    k := 0;
    while r[k].1 <= j
      invariant k < |r| && r[k].0 <= j
      decreases |r| - k
    {
      k := k + 1;
    }
  }

  /** Each index of `[start, start + total)` falls in exactly one range:
      the inputs (or outputs) take disjoint slices of the modal matrices. */
  lemma RangesTile(ios: seq<Io>, ts: seq<Option<Transform>>, start: nat, j: nat)
    requires |ts| == |ios| && start <= j < start + TotalWidth(ios, ts)
    ensures exists k :: 0 <= k < |ios| && Ranges(ios, ts, start)[k].0 <= j < Ranges(ios, ts, start)[k].1
    ensures forall k, k' ::
      (0 <= k < |ios| && 0 <= k' < |ios| &&
       Ranges(ios, ts, start)[k].0 <= j < Ranges(ios, ts, start)[k].1 &&
       Ranges(ios, ts, start)[k'].0 <= j < Ranges(ios, ts, start)[k'].1) ==> k == k'
  {
    var k := RangesCover(ios, ts, start, j);
    RangesIncrease(ios, ts, start);
  }

  /** Later ranges start no earlier than earlier ranges end. */
  lemma RangesIncrease(ios: seq<Io>, ts: seq<Option<Transform>>, start: nat)
    requires |ts| == |ios|
    ensures forall k, k' :: 0 <= k < k' < |ios| ==> Ranges(ios, ts, start)[k].1 <= Ranges(ios, ts, start)[k'].0
    ensures forall k :: 0 <= k < |ios| ==> start <= Ranges(ios, ts, start)[k].0 && Ranges(ios, ts, start)[k].1 <= start + TotalWidth(ios, ts)
  {
    var r := Ranges(ios, ts, start);
    forall k, k' | 0 <= k < k' < |ios| ensures r[k].1 <= r[k'].0 {
      OffsetMono(ios, ts, k + 1, k');
    }
    forall k | 0 <= k < |ios| ensures r[k].1 <= start + TotalWidth(ios, ts) {
      OffsetMono(ios, ts, k + 1, |ios|);
      OffsetTotal(ios, ts);
    }
  }

  /** The discrete modal solver built: the modes kept, the sizes of its
      input and output vectors, and the ranges of the inputs and outputs. */
  datatype Solver = Solver(modes: seq<nat>, u: nat, y: nat, insRanges: seq<(nat, nat)>, outsRanges: seq<(nat, nat)>)

  /** The truncation rule: with a Hankel singular value threshold, mode `k`
      stays if its frequency is below the lower bound (zero when unset) or
      its Hankel singular value is above the threshold; without one, every
      mode stays. */
  predicate Kept(b: Builder, w: seq<real>, hsv: seq<real>, k: nat)
    requires k < |w| && k < |hsv|
  {
    b.hsvThreshold.None? || w[k] < b.hsvLowerBound.UnwrapOr(0.0) || hsv[k] > b.hsvThreshold.value
  }

  function Truncate(b: Builder, w: seq<real>, hsv: seq<real>, n: nat): (modes: seq<nat>)
    requires n <= |w| && n <= |hsv|
    ensures forall k: nat :: k in modes <==> k < n && Kept(b, w, hsv, k)
    ensures forall i, j :: 0 <= i < j < |modes| ==> modes[i] < modes[j]
    ensures forall i :: 0 <= i < |modes| ==> modes[i] < n
  {
    if n == 0 then []
    else Truncate(b, w, hsv, n - 1) + (if Kept(b, w, hsv, n - 1) then [n - 1] else [])
  }

  /** Without a threshold the model keeps all its modes, in order. */
  lemma TruncateNone(b: Builder, w: seq<real>, hsv: seq<real>, n: nat)
    requires n <= |w| && n <= |hsv| && b.hsvThreshold.None?
    ensures Truncate(b, w, hsv, n) == Iota(n)
  {
    if n > 0 {
      TruncateNone(b, w, hsv, n - 1);
      assert Iota(n) == Iota(n - 1) + [n - 1];
    }
  }

  /** `0..n` */
  function Iota(n: nat): (r: seq<nat>)
    ensures |r| == n && forall k :: 0 <= k < n ==> r[k] == k
  {
    seq(n, k requires 0 <= k < n => k)
  }

  /** A higher threshold keeps no more modes. */
  lemma TruncateMonotone(b: Builder, w: seq<real>, hsv: seq<real>, n: nat, t1: real, t2: real)
    requires n <= |w| && n <= |hsv| && t1 <= t2
    ensures forall k: nat :: k in Truncate(b.(hsvThreshold := Some(t2)), w, hsv, n) ==>
      k in Truncate(b.(hsvThreshold := Some(t1)), w, hsv, n)
  {
  }

  /** `build`: an error without a sampling rate, then an error without a
      FEM; otherwise the solver of the modes kept, whose input and output
      vectors are as wide as all the inputs and all the outputs. The Hankel
      singular values of the modes are given as `hsv`. With no mode left the
      matrix sizes divide by zero. */
  function Build(b: Builder, hsv: seq<real>): (r: Result<Solver, Error>)
    requires Paired(b)
    requires b.fem.Some? ==> FemValid(b.fem.value)
    requires b.fem.Some? && b.eigenFrequencies.Some? ==>
      forall k :: 0 <= k < |b.eigenFrequencies.value| ==> b.eigenFrequencies.value[k].0 < |b.fem.value.eigenFrequencies|
    requires b.fem.Some? ==> |hsv| >= |b.fem.value.eigenFrequencies|
    requires b.sampling.Some? && b.fem.Some? ==> GetProperties(b).value.nModes > 0
    ensures b.sampling.None? ==> r == Err(MissingArguments("sampling"))
    ensures b.sampling.Some? && b.fem.None? ==> r == Err(MissingArguments("FEM"))
    ensures r.Ok? <==> b.sampling.Some? && b.fem.Some?
    ensures r.Ok? ==> var p := GetProperties(b).value;
      && (forall k: nat :: k in r.value.modes <==> k < p.nModes && Kept(b, p.w, hsv, k))
      && r.value.u == TotalWidth(b.ins, b.insTransform)
      && r.value.y == TotalWidth(b.outs, b.outsTransform)
      && r.value.insRanges == Ranges(b.ins, b.insTransform, 0)
      && r.value.outsRanges == Ranges(b.outs, b.outsTransform, 0)
  {
    if b.sampling.None? then Err(MissingArguments("sampling"))
    else
      var p := GetProperties(b);
      if p.Err? then Err(p.error)
      else
        var props := p.value;
        Ok(Solver(
          Truncate(b, props.w, hsv, props.nModes),
          TotalWidth(b.ins, b.insTransform),
          TotalWidth(b.outs, b.outsTransform),
          Ranges(b.ins, b.insTransform, 0),
          Ranges(b.outs, b.outsTransform, 0)))
  }

  /** A builder made from a FEM and given its sampling rate builds: with
      no input, output, threshold or cut-off it keeps every mode, in order,
      and its input and output vectors are empty. */
  lemma BuildFromFem(fem: Fem, s: real, hsv: seq<real>)
    requires FemValid(fem) && |fem.eigenFrequencies| > 0 && |hsv| >= |fem.eigenFrequencies|
    ensures var r := Build(Sampling(FromFem(fem), s), hsv);
      r.Ok? && r.value.modes == Iota(|fem.eigenFrequencies|) && r.value.u == 0 && r.value.y == 0
  {
    var b := Sampling(FromFem(fem), s);
    TruncateNone(b, GetProperties(b).value.w, hsv, |fem.eigenFrequencies|);
  }

  /** The FEM and overrides `properties` accepts. */
  predicate PropertiesReady(b: Builder) {
    && b.fem.Some?
    && (b.eigenFrequencies.Some? ==>
          forall k :: 0 <= k < |b.eigenFrequencies.value| ==> b.eigenFrequencies.value[k].0 < |b.fem.value.eigenFrequencies|)
  }

  /** `proportional_damping(z)` gives every kept mode the damping `z`, and
      changes neither the frequencies nor the number of modes. */
  lemma DampingSetsZeta(b: Builder, z: real)
    requires PropertiesReady(b)
    ensures GetProperties(ProportionalDamping(b, z)).Ok?
    ensures var p := GetProperties(ProportionalDamping(b, z)).value;
      && p.zeta == Repeat(z, p.nModes)
      && p.w == GetProperties(b).value.w && p.nModes == GetProperties(b).value.nModes
  {
  }

  /** `max_eigen_frequency(f)` keeps as many modes as the FEM has
      frequencies at most `f`, and changes neither the frequencies nor a
      set damping. */
  lemma MaxFrequencySetsCount(b: Builder, f: real)
    requires PropertiesReady(b)
    ensures GetProperties(MaxEigenFrequency(b, f)).Ok?
    ensures var p := GetProperties(MaxEigenFrequency(b, f)).value;
      && p.nModes == CountAtMost(b.fem.value.eigenFrequencies, f)
      && p.w == GetProperties(b).value.w
      && (b.zeta.None? ==> p.zeta == GetProperties(b).value.zeta)
  {
  }

  /** `eigen_frequencies(ef)` writes the overrides into the FEM's
      frequencies, and leaves the number of modes and the damping alone. */
  lemma OverridesSetFrequencies(b: Builder, ef: seq<(nat, real)>)
    requires b.fem.Some? && forall k :: 0 <= k < |ef| ==> ef[k].0 < |b.fem.value.eigenFrequencies|
    requires PropertiesReady(b)
    ensures GetProperties(EigenFrequencies(b, ef)).Ok?
    ensures var p := GetProperties(EigenFrequencies(b, ef)).value;
      && p.w == Override(b.fem.value.eigenFrequencies, ef)
      && p.nModes == GetProperties(b).value.nModes && p.zeta == GetProperties(b).value.zeta
  {
  }

  /** `sampling(s)` is what `build` needs besides the FEM: with it, the
      build succeeds exactly when there is a FEM. */
  lemma SamplingEnablesBuild(b: Builder, s: real, hsv: seq<real>)
    requires Paired(b) && (b.fem.Some? ==> PropertiesReady(b) && FemValid(b.fem.value) && |hsv| >= |b.fem.value.eigenFrequencies|)
    requires b.fem.Some? ==> GetProperties(b).value.nModes > 0
    ensures Build(Sampling(b, s), hsv).Ok? <==> b.fem.Some?
    ensures b.fem.None? ==> Build(Sampling(b, s), hsv) == Err(MissingArguments("FEM"))
  {
  }

  /** `truncate_hankel_singular_values(t)` keeps exactly the modes below
      the lower bound or whose Hankel singular value exceeds `t`. */
  lemma ThresholdTruncates(b: Builder, t: real, hsv: seq<real>)
    requires Paired(b) && b.sampling.Some? && PropertiesReady(b) && FemValid(b.fem.value)
    requires |hsv| >= |b.fem.value.eigenFrequencies| && GetProperties(b).value.nModes > 0
    ensures var r := Build(TruncateHankelSingularValues(b, t), hsv);
      var p := GetProperties(b).value;
      r.Ok? && forall k: nat :: k in r.value.modes <==>
        k < p.nModes && (p.w[k] < b.hsvLowerBound.UnwrapOr(0.0) || hsv[k] > t)
  {
    var b1 := TruncateHankelSingularValues(b, t);
    assert GetProperties(b1) == GetProperties(b);
  }

  /** `hankel_frequency_lower_bound(f)`: with a threshold set, every mode
      below `f` is kept whatever its Hankel singular value. */
  lemma LowerBoundKeeps(b: Builder, f: real, hsv: seq<real>)
    requires Paired(b) && b.sampling.Some? && PropertiesReady(b) && FemValid(b.fem.value)
    requires |hsv| >= |b.fem.value.eigenFrequencies| && GetProperties(b).value.nModes > 0
    ensures var r := Build(HankelFrequencyLowerBound(b, f), hsv);
      var p := GetProperties(b).value;
      r.Ok? && forall k: nat :: k < p.nModes && p.w[k] < f ==> k in r.value.modes
  {
    var b1 := HankelFrequencyLowerBound(b, f);
    assert GetProperties(b1) == GetProperties(b);
  }

  /** The widths of the first `k` inputs do not depend on the inputs added
      after them. */
  lemma {:induction false} OffsetAppend(ios: seq<Io>, ts: seq<Option<Transform>>, io: Io, t: Option<Transform>, k: nat)
    requires |ts| == |ios| && k <= |ios|
    ensures Offset(ios + [io], ts + [t], k) == Offset(ios, ts, k)
    decreases k
  {
    if k > 0 {
      OffsetAppend(ios, ts, io, t, k - 1);
      assert (ios + [io])[k - 1] == ios[k - 1] && (ts + [t])[k - 1] == ts[k - 1];
    }
  }

  /** `ins(io)`: the new input takes the next `Width` columns after the
      existing ones, which keep their ranges; the input vector grows by its
      width. */
  lemma InsAppendsRange(b: Builder, io: Io, t: Option<Transform>)
    requires Paired(b)
    ensures Paired(Ins(b, io, t))
    ensures var b1 := Ins(b, io, t);
      && TotalWidth(b1.ins, b1.insTransform) == TotalWidth(b.ins, b.insTransform) + Width(io, t)
      && Ranges(b1.ins, b1.insTransform, 0) == Ranges(b.ins, b.insTransform, 0)
           + [(TotalWidth(b.ins, b.insTransform), TotalWidth(b.ins, b.insTransform) + Width(io, t))]
  {
    AppendRange(b.ins, b.insTransform, io, t);
  }

  /** `outs(io)`: the same for outputs. */
  lemma OutsAppendsRange(b: Builder, io: Io, t: Option<Transform>)
    requires Paired(b)
    ensures Paired(Outs(b, io, t))
    ensures var b1 := Outs(b, io, t);
      && TotalWidth(b1.outs, b1.outsTransform) == TotalWidth(b.outs, b.outsTransform) + Width(io, t)
      && Ranges(b1.outs, b1.outsTransform, 0) == Ranges(b.outs, b.outsTransform, 0)
           + [(TotalWidth(b.outs, b.outsTransform), TotalWidth(b.outs, b.outsTransform) + Width(io, t))]
  {
    AppendRange(b.outs, b.outsTransform, io, t);
  }

  lemma AppendRange(ios: seq<Io>, ts: seq<Option<Transform>>, io: Io, t: Option<Transform>)
    requires |ts| == |ios|
    ensures TotalWidth(ios + [io], ts + [t]) == TotalWidth(ios, ts) + Width(io, t)
    ensures Ranges(ios + [io], ts + [t], 0) == Ranges(ios, ts, 0) + [(TotalWidth(ios, ts), TotalWidth(ios, ts) + Width(io, t))]
  {
    var ios1, ts1 := ios + [io], ts + [t];
    var n := |ios|;
    OffsetTotal(ios, ts);
    OffsetTotal(ios1, ts1);
    OffsetAppend(ios, ts, io, t, n);
    assert ios1[n] == io && ts1[n] == t;
    forall k | 0 <= k <= n ensures Offset(ios1, ts1, k) == Offset(ios, ts, k) {
      OffsetAppend(ios, ts, io, t, k);
    }
    var r1, r := Ranges(ios1, ts1, 0), Ranges(ios, ts, 0);
    assert forall k :: 0 <= k < n ==> r1[k] == r[k];
  }
}
