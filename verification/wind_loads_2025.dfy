/**
 The CFD load groups of the 2025 CFD database, which the wind-load crate's
 builder uses when it is built for that database. They differ from the
 2021 table of the actor model's own client: the prime focus arms are a
 group of their own, the C-ring trusses are split off the C-rings, the GIR
 and the platforms name several monitors, and the M1 cells, the cranes and
 the cable trusses are new.
 */
module WindLoads2025 {
  import opened Common
  import WindLoadsClient

  /** `WindLoads` of the 2025 database. */
  datatype WindLoads =
    | TopEnd
    | M2Segments
    | M2Baffle
    | Trusses
    | PrimeFocusArms
    | M1Baffle
    | MirrorCovers
    | LaserGuideStars
    | CRings
    | CRingTrusses
    | GIR
    | Platforms
    | M1Cells
    | M1Segments
    | CranePosY
    | CraneNegY
    | CableTrusses

  /** `(from..=to).map(|i| format!("{prefix}{i}"))` for one-digit numbers. */
  function Numbered(prefix: string, from: nat, to: nat): (r: seq<string>)
    requires from <= to + 1 && to <= 9
    ensures |r| == to + 1 - from
  {
    WindLoadsClient.Numbered(prefix, from, to, "")
  }

  /** `keys()`: the names of the CFD monitors of a load group. */
  function Keys(w: WindLoads): (r: seq<string>)
    ensures w == MirrorCovers ==> |r| == 12
    ensures w == M1Cells ==> |r| == 13
    ensures w == M1Segments || w == M2Segments ==> |r| == 7
    ensures w == Trusses || w == CableTrusses ==> |r| == 6
    ensures w == Platforms ==> |r| == 8
    ensures w == CRingTrusses ==> |r| == 4
    ensures w == LaserGuideStars ==> |r| == 3
    ensures w == PrimeFocusArms || w == CRings || w == GIR ==> |r| == 2
    ensures w in {TopEnd, M2Baffle, M1Baffle, CranePosY, CraneNegY} ==> |r| == 1
  {
    match w
    case MirrorCovers => Numbered("M1cov", 1, 6) + Numbered("M1covin", 1, 6)
    case M1Cells => Numbered("M1c_", 1, 7) + ["M1p_+X"] + Numbered("M1p_", 2, 6)
    case M1Segments => Numbered("M1s_", 1, 7)
    case M2Segments => Numbered("M2seg", 1, 7)
    case TopEnd => ["Topend"]
    case M2Baffle => ["M2baffle"]
    case Trusses => Numbered("Tup", 1, 3) + Numbered("Tbot", 1, 3)
    case PrimeFocusArms => Numbered("arm", 2, 3)
    case M1Baffle => ["M1Baffle"]
    case LaserGuideStars => Numbered("LGSS", 1, 3)
    case CRings => ["Cring+X", "Cring-X"]
    case CRingTrusses => ["Cring_str+X", "Cring_str+Y", "Cring_str-X", "Cring_str-Y"]
    case GIR => ["GIR", "GIR_GCLEF"]
    case Platforms => ["plat+Xlo", "plat+Xup", "plat+Ylo", "plat+Yup", "plat-Xlo", "plat-Xup", "plat-Ylo", "plat-Yup"]
    case CranePosY => ["crane+Y"]
    case CraneNegY => ["crane-Y"]
    case CableTrusses => [
      "cabletruss1_bot", "cabletruss1_up", "cabletruss2_bot",
      "cabletruss2_up", "cabletruss3_bot", "cabletruss3_up"]
  }

  /** `fem()`: the patterns matched against the FEM input descriptions. */
  function Fem(w: WindLoads): (r: seq<string>)
    ensures w == M1Segments || w == M2Segments ==> |r| == 7
    ensures w == CRingTrusses ==> |r| == 4
    ensures w == LaserGuideStars ==> |r| == 3
    ensures w in {M1Cells, Trusses, CRings} ==> |r| == 2
    ensures w !in {M1Segments, M2Segments, CRingTrusses, LaserGuideStars, M1Cells, Trusses, CRings} ==> |r| == 1
  {
    match w
    case MirrorCovers => ["mirror cover"]
    case M1Cells => ["the entire M1 cell c", "LPA servicing and M1 in-situ wash platform"]
    case M1Segments => WindLoadsClient.Numbered("M1-S", 1, 7, " unit")
    case M2Segments => WindLoadsClient.Numbered("M2-S", 1, 7, " unit")
    case TopEnd => ["Top-End"]
    case M2Baffle => ["M2 baffle unit"]
    case Trusses => ["Upper truss", "Lower truss"]
    case PrimeFocusArms => ["Focus Assembly Arm"]
    case M1Baffle => ["Baffle protruding"]
    case LaserGuideStars => WindLoadsClient.Numbered("Laser Guide Star ", 1, 3, "")
    case CRings => ["C-Ring under M1 segments 2 and 3", "C-Ring under M1 segments 5 and 6"]
    case CRingTrusses => [
      "Truss on the outside of C-Ring below M1 cells 2 and 3",
      "Truss between C-Rings below M1 cell 1",
      "Truss on the outside of C-Ring below M1 cells 5 and 6",
      "Truss between C-Rings below M1 cell 4"]
    case GIR => ["GIR"]
    case Platforms => ["Instrument, OSS mid-level and auxiliary platforms"]
    case CranePosY => ["Crane Assembly on the +Y"]
    case CraneNegY => ["Crane Assembly on the -Y"]
    case CableTrusses => ["Cables on the"]
  }

  /** The segment monitors are `M1s_i` and `M2segi`, one per segment, all
      different, and the segment patterns of both mirrors are
      `M1-Si unit` and `M2-Si unit`. */
  lemma SegmentKeys()
    ensures forall i :: 1 <= i <= 7 ==> Keys(M1Segments)[i - 1] == "M1s_" + [WindLoadsClient.Digit(i)]
    ensures forall i :: 1 <= i <= 7 ==> Fem(M2Segments)[i - 1] == "M2-S" + [WindLoadsClient.Digit(i)] + " unit"
    ensures forall j, k :: 0 <= j < k < 7 ==> Keys(M1Segments)[j] != Keys(M1Segments)[k]
    ensures forall j, k :: 0 <= j < k < 7 ==> Keys(M2Segments)[j] != Keys(M2Segments)[k]
  {
    WindLoadsClient.NumberedDistinct("M1s_", 1, 7, "");
    WindLoadsClient.NumberedDistinct("M2seg", 1, 7, "");
    forall i | 1 <= i <= 7 ensures Keys(M1Segments)[i - 1] == "M1s_" + [WindLoadsClient.Digit(i)] {
      assert "M1s_" + [WindLoadsClient.Digit(i)] + "" == "M1s_" + [WindLoadsClient.Digit(i)];
    }
  }

  /** The nine load groups applied to the mount when none are given: the
      same list as with the 2021 table. */
  const DefaultMountLoads: seq<WindLoads> :=
    [TopEnd, M2Baffle, Trusses, M1Baffle, MirrorCovers, LaserGuideStars, CRings, GIR, Platforms]

  /** The monitor keys of a list of load groups (`flat_map(keys)`). */
  function LoadKeys(loads: seq<WindLoads>): (r: seq<string>)
    ensures |loads| == 0 ==> r == []
  {
    if |loads| == 0 then [] else Keys(loads[0]) + LoadKeys(loads[1..])
  }

  /** `mount(loads)`: the keys of the given groups, or of the nine default
      ones. The FEM input filtering and node locations are left out. */
  function MountKeys(loads: Option<seq<WindLoads>>): (r: seq<string>)
    ensures loads.None? ==> r == LoadKeys(DefaultMountLoads)
    ensures loads.Some? ==> r == LoadKeys(loads.value)
  {
    match loads
    case None => LoadKeys(DefaultMountLoads)
    case Some(l) => LoadKeys(l)
  }

  /** The default mount loads count 36 monitors with the 2025 table, one
      more than the 35 of the 2021 table. */
  lemma DefaultMountKeyCount()
    ensures |DefaultMountLoads| == 9
    ensures |MountKeys(None)| == 36
    ensures |MountKeys(None)| == |WindLoadsClient.MountKeys(None)| + 1
  {
    var l := DefaultMountLoads;
    assert |LoadKeys(l[9..])| == 0;
    assert |LoadKeys(l[8..])| == 8 by { assert l[8..][1..] == l[9..]; }
    assert |LoadKeys(l[7..])| == 10 by { assert l[7..][1..] == l[8..]; }
    assert |LoadKeys(l[6..])| == 12 by { assert l[6..][1..] == l[7..]; }
    assert |LoadKeys(l[5..])| == 15 by { assert l[5..][1..] == l[6..]; }
    assert |LoadKeys(l[4..])| == 27 by { assert l[4..][1..] == l[5..]; }
    assert |LoadKeys(l[3..])| == 28 by { assert l[3..][1..] == l[4..]; }
    assert |LoadKeys(l[2..])| == 34 by { assert l[2..][1..] == l[3..]; }
    assert |LoadKeys(l[1..])| == 35 by { assert l[1..][1..] == l[2..]; }
    assert |LoadKeys(l)| == 36 by { assert l[0..] == l; }
    WindLoadsClient.DefaultMountKeyCount();
  }
}
