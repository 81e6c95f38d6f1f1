/**
 The CFD wind-load client as the actor model sees it: the names of the CFD
 monitors of each load group, the FEM input patterns they match, the node
 list of the builder, and one `produce` call of the zero-order and the
 first-order hold clients.
 */
module WindLoadsClient {
  import opened Common
  import CoreClients
  import CfdLoads

  /** `WindLoads`: the CFD load groups. */
  datatype WindLoads =
    | TopEnd
    | M2Segments
    | M2Baffle
    | Trusses
    | M1Baffle
    | MirrorCovers
    | LaserGuideStars
    | CRings
    | GIR
    | Platforms
    | M1Segments

  /** The decimal digit of `i`. */
  function Digit(i: nat): (c: char)
    requires i <= 9
    ensures '0' <= c <= '9'
  {
    ('0' as int + i) as char
  }

  /** `(from..=to).map(|i| format!("{prefix}{i}{suffix}"))` for one-digit
      numbers. */
  function Numbered(prefix: string, from: nat, to: nat, suffix: string): (r: seq<string>)
    requires from <= to + 1 && to <= 9
    ensures |r| == to + 1 - from
    ensures forall k :: 0 <= k < |r| ==> r[k] == prefix + [Digit(from + k)] + suffix
  {
    seq(to + 1 - from, k requires 0 <= k < to + 1 - from => prefix + [Digit(from + k)] + suffix)
  }

  /** Numbered names are pairwise distinct. */
  lemma NumberedDistinct(prefix: string, from: nat, to: nat, suffix: string)
    requires from <= to + 1 && to <= 9
    ensures forall j, k :: 0 <= j < k < |Numbered(prefix, from, to, suffix)| ==>
      Numbered(prefix, from, to, suffix)[j] != Numbered(prefix, from, to, suffix)[k]
  {
    var r := Numbered(prefix, from, to, suffix);
    forall j, k | 0 <= j < k < |r| ensures r[j] != r[k] {
      assert r[j][|prefix|] == Digit(from + j);
      assert r[k][|prefix|] == Digit(from + k);
    }
  }

  /** `keys()`: the names of the CFD monitors of a load group. */
  function Keys(w: WindLoads): (r: seq<string>)
    ensures w == MirrorCovers ==> |r| == 12
    ensures w == M1Segments || w == M2Segments ==> |r| == 7
    ensures w == Trusses ==> |r| == 9
    ensures w == LaserGuideStars ==> |r| == 3
    ensures w == CRings ==> |r| == 6
    ensures w in {TopEnd, M2Baffle, M1Baffle, GIR, Platforms} ==> |r| == 1
  {
    match w
    case MirrorCovers => Numbered("M1cov", 1, 6, "") + Numbered("M1covin", 1, 6, "")
    case M1Segments => Numbered("M1_", 1, 7, "")
    case M2Segments => Numbered("M2seg", 1, 7, "")
    case TopEnd => ["Topend"]
    case M2Baffle => ["M2Baffle"]
    case Trusses => Numbered("Tup", 1, 3, "") + Numbered("Tbot", 1, 3, "") + Numbered("arm", 1, 3, "")
    case M1Baffle => ["M1Baffle"]
    case LaserGuideStars => Numbered("LGSS", 1, 3, "")
    case CRings => ["CringL", "CringR", "Cring_strL", "Cring_strR", "Cring_strF", "Cring_strB"]
    case GIR => ["GIR"]
    case Platforms => ["platform"]
  }

  /** `fem()`: the patterns matched against the FEM input descriptions. */
  function Fem(w: WindLoads): (r: seq<string>)
    ensures w == M1Segments || w == M2Segments ==> |r| == 7
    ensures w == Trusses ==> |r| == 3
    ensures w == CRings ==> |r| == 6
    ensures w !in {M1Segments, M2Segments, Trusses, CRings} ==> |r| == 1
  {
    match w
    case MirrorCovers => ["mirror cover"]
    case M1Segments => Numbered("M1-S", 1, 7, " unit")
    case M2Segments => Numbered("M2 cell ", 1, 7, ".")
    case TopEnd => ["Top-End"]
    case M2Baffle => ["M2 baffle unit"]
    case Trusses => ["Upper truss", "Lower truss", "Focus Assembly Arm"]
    case M1Baffle => ["Baffle protruding"]
    case LaserGuideStars => ["Laser Guide Star"]
    case CRings => [
      "C-Ring under M1 segments 5 and 6",
      "C-Ring under M1 segments 2 and 3",
      "outside of C-Ring below M1 cells 5 and 6",
      "outside of C-Ring below M1 cells 2 and 3",
      "between C-Rings below M1 cell 4",
      "between C-Rings below M1 cell 1"]
    case GIR => ["GIR"]
    case Platforms => ["Instrument, OSS mid-level, and Auxiliary Platforms"]
  }

  /** The FEM inputs of the segment loads are those of segment `i` of
      either mirror, and they differ from segment to segment. */
  lemma FemSegmentPatterns()
    ensures forall i :: 1 <= i <= 7 ==> Fem(M1Segments)[i - 1] == "M1-S" + [Digit(i)] + " unit"
    ensures forall i :: 1 <= i <= 7 ==> Fem(M2Segments)[i - 1] == "M2 cell " + [Digit(i)] + "."
    ensures forall j, k :: 0 <= j < k < 7 ==> Fem(M1Segments)[j] != Fem(M1Segments)[k]
  {
    NumberedDistinct("M1-S", 1, 7, " unit");
  }

  /** The segment loads are named `M1_i` and `M2segi`, one per segment, all
      different. */
  lemma SegmentKeys()
    ensures forall i :: 1 <= i <= 7 ==> Keys(M1Segments)[i - 1] == "M1_" + [Digit(i)]
    ensures forall i :: 1 <= i <= 7 ==> Keys(M2Segments)[i - 1] == "M2seg" + [Digit(i)]
    ensures forall j, k :: 0 <= j < k < 7 ==> Keys(M1Segments)[j] != Keys(M1Segments)[k]
    ensures forall j, k :: 0 <= j < k < 7 ==> Keys(M2Segments)[j] != Keys(M2Segments)[k]
  {
    NumberedDistinct("M1_", 1, 7, "");
    NumberedDistinct("M2seg", 1, 7, "");
    forall i | 1 <= i <= 7 ensures Keys(M1Segments)[i - 1] == "M1_" + [Digit(i)] {
      assert "M1_" + [Digit(i)] + "" == "M1_" + [Digit(i)];
    }
    forall i | 1 <= i <= 7 ensures Keys(M2Segments)[i - 1] == "M2seg" + [Digit(i)] {
      assert "M2seg" + [Digit(i)] + "" == "M2seg" + [Digit(i)];
    }
  }

  /** `CS`: where a load applies — a mount node or an M1 or M2 segment. */
  datatype CS = Oss(location: seq<real>) | M1S(sid: int) | M2S(sid: int)

  /** The builder's node list, the only part of `Builder` modelled. */
  datatype Builder = Builder(nodes: Option<seq<(string, CS)>>)

  /** `zip` of two sequences of equal length. */
  function Zip<A, B>(a: seq<A>, b: seq<B>): (r: seq<(A, B)>)
    requires |a| == |b|
    ensures |r| == |a| && forall k :: 0 <= k < |a| ==> r[k] == (a[k], b[k])
  {
    seq(|a|, k requires 0 <= k < |a| => (a[k], b[k]))
  }

  /** `nodes(keys, locations)`: panics unless the lengths agree, then
      replaces the node list by the pairs in order. */
  function Nodes(b: Builder, keys: seq<string>, locations: seq<CS>): (r: Builder)
    requires |keys| == |locations|
    ensures r.nodes.Some? && |r.nodes.value| == |keys|
    ensures forall k :: 0 <= k < |keys| ==> r.nodes.value[k].0 == keys[k] && r.nodes.value[k].1 == locations[k]
  {
    Builder(Some(Zip(keys, locations)))
  }

  /** The nodes of one mirror's segments: key `i` paired with segment
      `i + 1`. */
  function SegmentNodes(m1: bool): (r: seq<(string, CS)>)
    ensures |r| == 7
    ensures forall k :: 0 <= k < 7 ==>
      r[k] == if m1 then (Keys(M1Segments)[k], M1S(k + 1)) else (Keys(M2Segments)[k], M2S(k + 1))
  {
    if m1 then Zip(Keys(M1Segments), seq(7, k requires 0 <= k < 7 => M1S(k + 1)))
    else Zip(Keys(M2Segments), seq(7, k requires 0 <= k < 7 => M2S(k + 1)))
  }

  /** `m1_segments()`: the seven M1 segment nodes appended to the list
      (or starting it). */
  function WithM1Segments(b: Builder): (r: Builder)
    ensures r.nodes.Some? && r.nodes.value == b.nodes.UnwrapOr([]) + SegmentNodes(true)
  {
    Builder(Some(b.nodes.UnwrapOr([]) + SegmentNodes(true)))
  }

  /** `m2_segments()` */
  function WithM2Segments(b: Builder): (r: Builder)
    ensures r.nodes.Some? && r.nodes.value == b.nodes.UnwrapOr([]) + SegmentNodes(false)
  {
    Builder(Some(b.nodes.UnwrapOr([]) + SegmentNodes(false)))
  }

  /** Requesting M1 then M2 on a builder without nodes lists the fourteen
      segments, M1 first, each under its own key. */
  lemma BothMirrors()
    ensures var nodes := WithM2Segments(WithM1Segments(Builder(None))).nodes.value;
      && |nodes| == 14
      && (forall k :: 0 <= k < 7 ==> nodes[k] == ("M1_" + [Digit(k + 1)], M1S(k + 1)))
      && (forall k :: 7 <= k < 14 ==> nodes[k] == ("M2seg" + [Digit(k - 6)], M2S(k - 6)))
  {
    var nodes := WithM2Segments(WithM1Segments(Builder(None))).nodes.value;
    var a, b := SegmentNodes(true), SegmentNodes(false);
    assert nodes == a + b;
    SegmentNodesNamed();
    forall k | 0 <= k < 7 ensures nodes[k] == ("M1_" + [Digit(k + 1)], M1S(k + 1)) {
      assert nodes[k] == a[k];
    }
    forall k | 7 <= k < 14 ensures nodes[k] == ("M2seg" + [Digit(k - 6)], M2S(k - 6)) {
      assert nodes[k] == b[k - 7];
    }
  }

  /** Segment `k + 1` of either mirror is under its own key. */
  lemma SegmentNodesNamed()
    ensures forall k :: 0 <= k < 7 ==> SegmentNodes(true)[k] == ("M1_" + [Digit(k + 1)], M1S(k + 1))
    ensures forall k :: 0 <= k < 7 ==> SegmentNodes(false)[k] == ("M2seg" + [Digit(k + 1)], M2S(k + 1))
  {
    SegmentKeys();
  }

  /** The nine load groups applied to the mount when none are given. */
  const DefaultMountLoads: seq<WindLoads> :=
    [TopEnd, M2Baffle, Trusses, M1Baffle, MirrorCovers, LaserGuideStars, CRings, GIR, Platforms]

  /** The monitor keys of a list of load groups (`flat_map(keys)`). */
  function LoadKeys(loads: seq<WindLoads>): (r: seq<string>)
    ensures |loads| == 0 ==> r == []
  {
    if |loads| == 0 then [] else Keys(loads[0]) + LoadKeys(loads[1..])
  }

  /** `mount(loads)`: the keys of the given groups, or of the nine default
      ones. The FEM input filtering and node locations are left out. */
  function MountKeys(loads: Option<seq<WindLoads>>): (r: seq<string>)
    ensures loads.None? ==> r == LoadKeys(DefaultMountLoads)
    ensures loads.Some? ==> r == LoadKeys(loads.value)
  {
    LoadKeys(loads.UnwrapOr(DefaultMountLoads))
  }

  /** The default mount loads count 35 monitors. */
  lemma DefaultMountKeyCount()
    ensures |DefaultMountLoads| == 9
    ensures |MountKeys(None)| == 35
  {
    var l := DefaultMountLoads;
    assert l[1..][1..][1..][1..][1..][1..][1..][1..][1..] == [];
    assert |LoadKeys(l[8..])| == 1 by {
      assert l[8..] == [Platforms] && l[8..][1..] == [];
    }
    assert l[1..] == l[1..];
  }

  /** `CfdLoads` of the actor model: the three load vectors, the number of
      mount values per sample, the step and the two frequencies of the
      first-order hold. */
  datatype Loads = Loads(
    oss: Option<seq<real>>,
    m1: Option<seq<real>>,
    m2: Option<seq<real>>,
    n_fm: nat,
    step: nat,
    sampling_frequency: nat,
    upsampling_frequency: nat)

  /** A loaded vector with its number of values per sample, or nothing. */
  function StreamOf(s: Option<seq<real>>, n: nat): (r: seq<(seq<real>, nat)>)
    ensures |r| <= 1 && (r == [] <==> s.None?)
  {
    if s.Some? then [(s.value, n)] else []
  }

  /** The loaded vectors, with the number of values per sample of each, in
      the order mount, M1, M2. */
  function Streams(c: Loads): (r: seq<(seq<real>, nat)>)
    ensures |r| <= 3
  {
    StreamOf(c.oss, c.n_fm) + StreamOf(c.m1, CfdLoads.SegmentValues) + StreamOf(c.m2, CfdLoads.SegmentValues)
  }

  /** `out` holds the next sample of each vector of `before`, and `after`
      what is left of them. */
  predicate Drained(out: seq<seq<real>>, before: seq<(seq<real>, nat)>, after: seq<(seq<real>, nat)>) {
    && |out| == |before| == |after|
    && forall k :: 0 <= k < |before| ==>
      && |before[k].0| >= before[k].1
      && out[k] == before[k].0[..before[k].1]
      && out[k] + after[k].0 == before[k].0
  }

  lemma DrainedAppend(o1: seq<seq<real>>, b1: seq<(seq<real>, nat)>, a1: seq<(seq<real>, nat)>,
                      o2: seq<seq<real>>, b2: seq<(seq<real>, nat)>, a2: seq<(seq<real>, nat)>)
    requires Drained(o1, b1, a1) && Drained(o2, b2, a2)
    ensures Drained(o1 + o2, b1 + b2, a1 + a2)
  {
    var o, b, a := o1 + o2, b1 + b2, a1 + a2;
    forall k | |b1| <= k < |b|
      ensures |b[k].0| >= b[k].1 && o[k] == b[k].0[..b[k].1] && o[k] + a[k].0 == b[k].0
    {
      assert o[k] == o2[k - |b1|] && b[k] == b2[k - |b1|] && a[k] == a2[k - |b1|];
    }
  }

  /** Every loaded vector still holds data. */
  predicate AllFlowing(c: Loads) {
    && (c.oss.Some? ==> |c.oss.value| > 0)
    && (c.m1.Some? ==> |c.m1.value| > 0)
    && (c.m2.Some? ==> |c.m2.value| > 0)
  }

  predicate AnyLoaded(c: Loads) {
    c.oss.Some? || c.m1.Some? || c.m2.Some?
  }

  /** `drain(..n)` panics on a non-empty vector shorter than `n`. */
  predicate ZohCanProduce(c: Loads) {
    AnyLoaded(c) && AllFlowing(c) ==>
      && (c.oss.Some? ==> |c.oss.value| >= c.n_fm)
      && (c.m1.Some? ==> |c.m1.value| >= CfdLoads.SegmentValues)
      && (c.m2.Some? ==> |c.m2.value| >= CfdLoads.SegmentValues)
  }

  /** The next sample of one loaded vector, and what is left of it. */
  function DrainOne(s: Option<seq<real>>, n: nat): (r: (Option<seq<real>>, seq<seq<real>>))
    requires s.Some? ==> |s.value| >= n
    ensures r.0.Some? <==> s.Some?
    ensures Drained(r.1, StreamOf(s, n), StreamOf(r.0, n))
  {
    if s.Some? then (Some(s.value[n..]), [s.value[..n]]) else (None, [])
  }

  /** `produce` of the zero-order hold: nothing once any loaded vector has
      run dry (or nothing is loaded); otherwise the next sample of every
      loaded vector, mount first, each removed from its vector. */
  function ZohProduce(c: Loads): (r: (Loads, Option<seq<seq<real>>>))
    requires ZohCanProduce(c)
    ensures r.1.Some? <==> AnyLoaded(c) && AllFlowing(c)
    ensures r.1.None? ==> r.0 == c
    ensures r.1.Some? ==> Drained(r.1.value, Streams(c), Streams(r.0))
    ensures r.0 == c.(oss := r.0.oss, m1 := r.0.m1, m2 := r.0.m2)
  {
    if !AnyLoaded(c) || !AllFlowing(c) then (c, None)
    else
      var (oss, a) := DrainOne(c.oss, c.n_fm);
      var (m1, b) := DrainOne(c.m1, CfdLoads.SegmentValues);
      var (m2, d) := DrainOne(c.m2, CfdLoads.SegmentValues);
      var c' := c.(oss := oss, m1 := m1, m2 := m2);
      DrainedAppend(a, StreamOf(c.oss, c.n_fm), StreamOf(oss, c.n_fm),
        b, StreamOf(c.m1, CfdLoads.SegmentValues), StreamOf(m1, CfdLoads.SegmentValues));
      DrainedAppend(a + b, StreamOf(c.oss, c.n_fm) + StreamOf(c.m1, CfdLoads.SegmentValues),
        StreamOf(oss, c.n_fm) + StreamOf(m1, CfdLoads.SegmentValues),
        d, StreamOf(c.m2, CfdLoads.SegmentValues), StreamOf(m2, CfdLoads.SegmentValues));
      (c', Some(a + b + d))
  }

  /** With only mount loads, the zero-order hold hands out the mount
      vector exactly as a `Source` of `n_fm`-value samples does. */
  lemma ZohIsSource(c: Loads)
    requires c.m1.None? && c.m2.None? && c.oss.Some?
    requires CoreClients.CanWrite(CoreClients.Source(c.n_fm, c.oss.value))
    ensures ZohCanProduce(c)
    ensures var (s', o) := CoreClients.SourceWrite(CoreClients.Source(c.n_fm, c.oss.value));
      && ZohProduce(c).0.oss == Some(s'.data)
      && (o.None? <==> ZohProduce(c).1.None?)
      && (o.Some? ==> ZohProduce(c).1.value == [o.value])
  {
    assert Streams(c) == [(c.oss.value, c.n_fm)];
  }

  /** The first-order hold's interpolator for the current step:
      `upsampling / sampling` steps per CFD sample. */
  function HoldAt(c: Loads): (f: CfdLoads.Foh)
    requires c.sampling_frequency > 0 && c.upsampling_frequency / c.sampling_frequency > 0
    ensures f.rate == c.upsampling_frequency / c.sampling_frequency
  {
    CfdLoads.Update(CfdLoads.NewFoh(c.upsampling_frequency / c.sampling_frequency), c.step)
  }

  /** The `Some` values of a list of options, in order. */
  function Present(os: seq<Option<seq<real>>>): (r: seq<seq<real>>)
    ensures |r| <= |os|
  {
    if |os| == 0 then [] else (if os[0].Some? then [os[0].value] else []) + Present(os[1..])
  }

  /** The interpolated sample of each loaded vector, mount first. */
  function HoldSamples(c: Loads, f: CfdLoads.Foh): (r: seq<Option<seq<real>>>)
    requires c.oss.Some? ==> c.n_fm > 0
    ensures |r| == 3
    ensures r[0] == if c.oss.Some? then CfdLoads.Sample(f, c.oss.value, c.n_fm) else None
    ensures r[1] == if c.m1.Some? then CfdLoads.Sample(f, c.m1.value, CfdLoads.SegmentValues) else None
    ensures r[2] == if c.m2.Some? then CfdLoads.Sample(f, c.m2.value, CfdLoads.SegmentValues) else None
  {
    [
      if c.oss.Some? then CfdLoads.Sample(f, c.oss.value, c.n_fm) else None,
      if c.m1.Some? then CfdLoads.Sample(f, c.m1.value, CfdLoads.SegmentValues) else None,
      if c.m2.Some? then CfdLoads.Sample(f, c.m2.value, CfdLoads.SegmentValues) else None
    ]
  }

  /** `produce` of the first-order hold: the step always advances; the
      interpolated sample of every loaded vector that has the two CFD
      samples around the step, mount first, and nothing when none has. */
  function FohProduce(c: Loads): (r: (Loads, Option<seq<seq<real>>>))
    requires c.sampling_frequency > 0 && c.upsampling_frequency / c.sampling_frequency > 0
    requires c.oss.Some? ==> c.n_fm > 0
    ensures r.0 == c.(step := c.step + 1)
    ensures var samples := HoldSamples(c, HoldAt(c));
      && (r.1.None? <==> Present(samples) == [])
      && (r.1.Some? ==> r.1.value == Present(samples))
  {
    var out := Present(HoldSamples(c, HoldAt(c)));
    (c.(step := c.step + 1), if |out| == 0 then None else Some(out))
  }

  /** On the step of CFD sample `k`, the first-order hold of the mount
      loads hands out that CFD sample. */
  lemma FohOnSample(c: Loads, k: nat)
    requires c.sampling_frequency > 0 && c.upsampling_frequency / c.sampling_frequency > 0
    requires c.oss.Some? && c.m1.None? && c.m2.None? && c.n_fm > 0
    requires c.step == k * (c.upsampling_frequency / c.sampling_frequency)
    requires Times(k + 2, c.n_fm) <= |c.oss.value|
    ensures k < |Chunks(c.oss.value, c.n_fm)|
    ensures FohProduce(c).1 == Some([Chunks(c.oss.value, c.n_fm)[k]])
  {
    var f := HoldAt(c);
    var s := CfdLoads.Sample(f, c.oss.value, c.n_fm);
    MountSampleOnKnot(c, k);
    PresentFirst(s);
    assert HoldSamples(c, f) == [s, None, None];
  }

  /** The mount sample on the step of CFD sample `k` is CFD sample `k`. */
  lemma MountSampleOnKnot(c: Loads, k: nat)
    requires c.sampling_frequency > 0 && c.upsampling_frequency / c.sampling_frequency > 0
    requires c.oss.Some? && c.n_fm > 0
    requires c.step == k * (c.upsampling_frequency / c.sampling_frequency)
    requires Times(k + 2, c.n_fm) <= |c.oss.value|
    ensures k < |Chunks(c.oss.value, c.n_fm)|
    ensures CfdLoads.Sample(HoldAt(c), c.oss.value, c.n_fm) == Some(Chunks(c.oss.value, c.n_fm)[k])
  {
    var r := c.upsampling_frequency / c.sampling_frequency;
    CfdLoads.UpdateOnSample(CfdLoads.NewFoh(r), k);
    var f := HoldAt(c);
    assert f.i == k && f.u == 0.0;
    var x := c.oss.value;
    TimesSucc(k + 1, c.n_fm);
    ChunksCount(x, c.n_fm, k + 1);
    ChunksCount(x, c.n_fm, k + 2);
    var cs := Chunks(x, c.n_fm);
    FullChunkBeforeLast(x, c.n_fm, k + 1);
    var s := CfdLoads.Sample(f, x, c.n_fm);
    assert s.Some?;
    CfdLoads.SampleOnKnot(f, x, c.n_fm);
    assert s.value == cs[k];
  }

  lemma PresentFirst(s: Option<seq<real>>)
    requires s.Some?
    ensures Present([s, None, None]) == [s.value]
  {
    var none: Option<seq<real>> := None;
    assert Present([none]) == [] by {
      assert [none][1..] == [];
    }
    assert Present([none, none]) == [] by {
      assert [none, none][1..] == [none];
    }
    assert [s, none, none][1..] == [none, none];
  }

  /** A chunk that ends no later than the data is a whole chunk. */
  lemma FullChunkBeforeLast<T>(x: seq<T>, n: nat, i: nat)
    requires n > 0 && Times(i + 1, n) <= |x|
    ensures i < |Chunks(x, n)| && |Chunks(x, n)[i]| == n
    decreases i
  {
    TimesSucc(i, n);
    ChunksCount(x, n, i);
    if i > 0 {
      assert |x| > n by {
        TimesMonoOne(i, n);
      }
      FullChunkBeforeLast(x[n..], n, i - 1);
      TimesSucc(i - 1, n);
      assert Chunks(x, n)[i] == Chunks(x[n..], n)[i - 1];
    } else {
      assert Times(1, n) == n;
    }
  }

  lemma TimesMonoOne(i: nat, n: nat)
    requires i > 0
    ensures Times(i + 1, n) >= n + n
  {
    TimesSucc(i, n);
    MulAtLeastNat(i, n);
  }

  lemma MulAtLeastNat(i: nat, n: nat)
    requires i > 0
    ensures Times(i, n) >= n
  {
    TimesSucc(i - 1, n);
  }
}
