/**
 The ASM voice-coil position preprocessor: the voice coils are split by
 their radius into an outer ring (`m1`), a middle ring (`m2`) and an inner
 disk (`m3`); the positions of the inner coils are recomputed from the two
 rings, `p3 = A·p1 + B·p2`, and written back into the inner slots. The
 matrices `A` and `B` come from a stiffness-matrix inversion that is left
 out: they are given.
 */
module AsmPreprocessor {
  import opened Common

  /** The two radii that separate the regions, in metres, squared: the
      masks compare `hypot(x, y)` with 0.21 and 0.28, which for a
      non-negative radius is comparing `x² + y²` with their squares. */
  const Inner2: real := 0.21 * 0.21
  const Outer2: real := 0.28 * 0.28

  /** The three regions of the voice coils. */
  datatype Region = OuterRing | MiddleRing | InnerDisk

  /** The predicate each mask applies to the squared radius:
      `r > 0.28`, `0.21 < r < 0.28` and `r < 0.21`. */
  predicate InRegion(region: Region, r2: real) {
    match region
    case OuterRing => r2 > Outer2
    case MiddleRing => Inner2 < r2 < Outer2
    case InnerDisk => r2 < Inner2
  }

  /** The squared radius of a node. */
  function Radius2(x: real, y: real): real {
    x * x + y * y
  }

  /** `nodes_by(nodes, pred)`: one flag per `(x, y)` pair (an odd number of
      coordinates panics on the last, one-value pair). */
  function NodesBy(nodes: seq<real>, region: Region): (mask: seq<bool>)
    requires |nodes| % 2 == 0
    ensures |mask| == |nodes| / 2
    ensures forall k :: 0 <= k < |mask| ==> mask[k] == InRegion(region, Radius2(nodes[2 * k], nodes[2 * k + 1]))
    decreases |nodes|
  {
    if |nodes| == 0 then []
    else
      var rest := NodesBy(nodes[2..], region);
      NodesByCons(nodes, region, rest);
      [InRegion(region, Radius2(nodes[0], nodes[1]))] + rest
  }

  /** The first pair's flag followed by the flags of the other pairs. */
  lemma NodesByCons(nodes: seq<real>, region: Region, rest: seq<bool>)
    requires |nodes| >= 2 && |rest| == (|nodes| - 2) / 2
    requires forall k :: 0 <= k < |rest| ==> rest[k] == InRegion(region, Radius2(nodes[2..][2 * k], nodes[2..][2 * k + 1]))
    ensures var mask := [InRegion(region, Radius2(nodes[0], nodes[1]))] + rest;
      forall k :: 0 <= k < |mask| ==> mask[k] == InRegion(region, Radius2(nodes[2 * k], nodes[2 * k + 1]))
  {
    var mask := [InRegion(region, Radius2(nodes[0], nodes[1]))] + rest;
    forall k | 0 <= k < |mask| ensures mask[k] == InRegion(region, Radius2(nodes[2 * k], nodes[2 * k + 1])) {
      if k > 0 {
        assert mask[k] == rest[k - 1];
        assert 2 * k == 2 + 2 * (k - 1);
      }
    }
  }

  /** No voice coil is in two regions, and only those exactly on one of the
      two radii are in none. */
  lemma RegionsPartition(r2: real)
    ensures !(InRegion(OuterRing, r2) && InRegion(MiddleRing, r2))
    ensures !(InRegion(OuterRing, r2) && InRegion(InnerDisk, r2))
    ensures !(InRegion(MiddleRing, r2) && InRegion(InnerDisk, r2))
    ensures (InRegion(OuterRing, r2) || InRegion(MiddleRing, r2) || InRegion(InnerDisk, r2)) <==> r2 != Inner2 && r2 != Outer2
  {
  }

  /** The three masks of a node list are pairwise disjoint. */
  lemma MasksDisjoint(nodes: seq<real>)
    requires |nodes| % 2 == 0
    ensures forall k :: 0 <= k < |nodes| / 2 ==>
      && !(NodesBy(nodes, OuterRing)[k] && NodesBy(nodes, MiddleRing)[k])
      && !(NodesBy(nodes, OuterRing)[k] && NodesBy(nodes, InnerDisk)[k])
      && !(NodesBy(nodes, MiddleRing)[k] && NodesBy(nodes, InnerDisk)[k])
  {
    forall k | 0 <= k < |nodes| / 2 {
      RegionsPartition(Radius2(nodes[2 * k], nodes[2 * k + 1]));
    }
  }

  /** `VCMi` into a vector: `len()` is the number of set mask entries (it
      panics when there are none) and the vector is filled from the masked
      positions (`from_iterator` panics when they run short). */
  function Vcm(vcm: seq<real>, mask: seq<bool>): (r: seq<real>)
    requires CountTrue(mask) > 0 && |Select(vcm, mask)| >= CountTrue(mask)
    ensures |r| == CountTrue(mask)
    ensures r == Select(vcm, mask)[..CountTrue(mask)]
  {
    Select(vcm, mask)[..CountTrue(mask)]
  }

  /** A long enough vector gives exactly its masked entries. */
  lemma VcmOfLongVector(vcm: seq<real>, mask: seq<bool>)
    requires CountTrue(mask) > 0 && |vcm| >= |mask|
    ensures |Select(vcm, mask)| >= CountTrue(mask)
    ensures Vcm(vcm, mask) == Select(vcm, mask)
  {
    SelectLength(vcm, mask);
  }

  /** `A · x`: each row's dot product with `x` (a size mismatch panics). */
  function MatVec(a: seq<seq<real>>, x: seq<real>): (r: seq<real>)
    requires forall i :: 0 <= i < |a| ==> |a[i]| == |x|
    ensures |r| == |a| && forall i :: 0 <= i < |a| ==> r[i] == Dot(a[i], x)
  {
    seq(|a|, i requires 0 <= i < |a| => Dot(a[i], x))
  }

  function Dot(u: seq<real>, v: seq<real>): real
    requires |u| == |v|
  {
    if |u| == 0 then 0.0 else u[0] * v[0] + Dot(u[1..], v[1..])
  }

  /** Elementwise sum (a size mismatch panics). */
  function Add(u: seq<real>, v: seq<real>): (r: seq<real>)
    requires |u| == |v|
    ensures |r| == |u| && forall i :: 0 <= i < |u| ==> r[i] == u[i] + v[i]
  {
    seq(|u|, i requires 0 <= i < |u| => u[i] + v[i])
  }

  /** The matrices `(A, B)`. */
  datatype Mats = Mats(a: seq<seq<real>>, b: seq<seq<real>>)

  /** `Preprocessor`: the three masks, the matrices when the inversion
      succeeded, the last command read, the last positions computed, and
      the positions-to-modes matrix. */
  datatype Preprocessor = Preprocessor(
    m1: seq<bool>,
    m2: seq<bool>,
    m3: seq<bool>,
    mats: Option<Mats>,
    data: Option<seq<real>>,
    positions: Option<seq<real>>,
    positions2modes: Option<seq<seq<real>>>)

  /** Voice coils per ASM segment. */
  const NVoiceCoils: nat := 675

  /** `Preprocessor::new(nodes, stiffness, positions2modes)`, with the
      outcome of the inversion given as `mats`: the three region masks and
      675 zero positions. */
  function New(nodes: seq<real>, mats: Option<Mats>, positions2modes: Option<seq<seq<real>>>): (pp: Preprocessor)
    requires |nodes| % 2 == 0
    ensures pp.m1 == NodesBy(nodes, OuterRing) && pp.m2 == NodesBy(nodes, MiddleRing) && pp.m3 == NodesBy(nodes, InnerDisk)
    ensures pp.positions == Some(Repeat(0.0, NVoiceCoils)) && pp.data.None?
    ensures pp.mats == mats && pp.positions2modes == positions2modes
  {
    Preprocessor(NodesBy(nodes, OuterRing), NodesBy(nodes, MiddleRing), NodesBy(nodes, InnerDisk),
      mats, None, Some(Repeat(0.0, NVoiceCoils)), positions2modes)
  }

  /** What `mul` needs not to panic: both ring vectors can be formed, and
      the matrices fit them. */
  predicate CanMul(pp: Preprocessor, rhs: seq<real>) {
    && CountTrue(pp.m1) > 0 && |Select(rhs, pp.m1)| >= CountTrue(pp.m1)
    && CountTrue(pp.m2) > 0 && |Select(rhs, pp.m2)| >= CountTrue(pp.m2)
    && (pp.mats.Some? ==>
          && |pp.mats.value.a| == |pp.mats.value.b|
          && (forall i :: 0 <= i < |pp.mats.value.a| ==> |pp.mats.value.a[i]| == CountTrue(pp.m1))
          && (forall i :: 0 <= i < |pp.mats.value.b| ==> |pp.mats.value.b[i]| == CountTrue(pp.m2)))
  }

  /** `p3 = A·p1 + B·p2` */
  function InnerPositions(pp: Preprocessor, rhs: seq<real>): (p3: seq<real>)
    requires CanMul(pp, rhs) && pp.mats.Some?
    ensures |p3| == |pp.mats.value.a|
  {
    var p1 := Vcm(rhs, pp.m1);
    var p2 := Vcm(rhs, pp.m2);
    Add(MatVec(pp.mats.value.a, p1), MatVec(pp.mats.value.b, p2))
  }

  /** `&Preprocessor * rhs`: a copy of `rhs` with the inner positions
      replaced, or an empty vector without matrices. */
  function Mul(pp: Preprocessor, rhs: seq<real>): (r: seq<real>)
    requires CanMul(pp, rhs)
    ensures pp.mats.None? ==> r == []
    ensures pp.mats.Some? ==> |r| == |rhs|
    ensures pp.mats.Some? ==> forall i :: 0 <= i < |rhs| && !(i < |pp.m3| && pp.m3[i]) ==> r[i] == rhs[i]
  {
    if pp.mats.Some? then ScatterInto(rhs, pp.m3, InnerPositions(pp, rhs)) else []
  }

  /** When `A` and `B` have one row per inner coil, the inner coils of the
      product are exactly `p3`. */
  lemma MulFillsInner(pp: Preprocessor, rhs: seq<real>)
    requires CanMul(pp, rhs) && pp.mats.Some? && |rhs| >= |pp.m3|
    requires |pp.mats.value.a| == CountTrue(pp.m3)
    ensures Select(Mul(pp, rhs), pp.m3) == InnerPositions(pp, rhs)
  {
    ScatterIntoSelect(rhs, pp.m3, InnerPositions(pp, rhs));
  }

  /** `apply(p)`: the same replacement in place; without matrices `p` is
      left as it is. */
  function Apply(pp: Preprocessor, p: seq<real>): (r: seq<real>)
    requires CanMul(pp, p)
    ensures pp.mats.None? ==> r == p
    ensures pp.mats.Some? ==> r == Mul(pp, p)
  {
    if pp.mats.Some? then ScatterInto(p, pp.m3, InnerPositions(pp, p)) else p
  }

  /** `Read<AsmCommand<7>>` */
  function Read(pp: Preprocessor, x: seq<real>): (r: Preprocessor)
    ensures r == pp.(data := Some(x))
  {
    pp.(data := Some(x))
  }

  /** `update`: the command read is consumed, and the positions become its
      product (none when nothing was read). */
  function Update(pp: Preprocessor): (r: Preprocessor)
    requires pp.data.Some? ==> CanMul(pp, pp.data.value)
    ensures r.data.None?
    ensures r.positions.Some? <==> pp.data.Some?
    ensures pp.data.Some? ==> r.positions.value == Mul(pp, pp.data.value)
    ensures r == pp.(data := None, positions := r.positions)
  {
    var positions := if pp.data.Some? then Some(Mul(pp, pp.data.value)) else None;
    pp.(data := None, positions := positions)
  }

  /** `Write<AsmCommand<7>>` */
  function WriteCommand(pp: Preprocessor): (r: Option<seq<real>>)
    ensures r == pp.positions
  {
    pp.positions
  }

  /** `Write<FaceSheetFigure<7>>`: the modes of the positions, when both
      the positions and the positions-to-modes matrix are there. */
  function WriteFaceSheet(pp: Preprocessor): (r: Option<seq<real>>)
    requires pp.positions.Some? && pp.positions2modes.Some? ==>
      forall i :: 0 <= i < |pp.positions2modes.value| ==> |pp.positions2modes.value[i]| == |pp.positions.value|
    ensures r.Some? <==> pp.positions.Some? && pp.positions2modes.Some?
    ensures r.Some? ==> |r.value| == |pp.positions2modes.value|
    ensures r.Some? ==> forall i :: 0 <= i < |r.value| ==> r.value[i] == Dot(pp.positions2modes.value[i], pp.positions.value)
  {
    if pp.positions.Some? && pp.positions2modes.Some? then Some(MatVec(pp.positions2modes.value, pp.positions.value))
    else None
  }

  /** A command read, processed and written comes back with its inner
      positions recomputed; an update without a new command leaves nothing
      to write. */
  lemma ReadUpdateWrite(pp: Preprocessor, x: seq<real>)
    requires CanMul(pp, x)
    ensures WriteCommand(Update(Read(pp, x))) == Some(Mul(pp, x))
    ensures WriteCommand(Update(Update(Read(pp, x)))).None?
  {
  }

  /** `Kij`: the columns of `mat` picked by the column mask, then the rows
      picked by the row mask. */
  function Kij(mat: seq<seq<real>>, rows_mask: seq<bool>, columns_mask: seq<bool>): (r: seq<seq<real>>)
    ensures |r| <= |mat| && |r| <= |rows_mask|
  {
    Select(SelectColumns(mat, columns_mask), rows_mask)
  }

  /** Each row restricted to the masked columns. */
  function SelectColumns(mat: seq<seq<real>>, columns_mask: seq<bool>): (r: seq<seq<real>>)
    ensures |r| == |mat| && forall i :: 0 <= i < |mat| ==> r[i] == Select(mat[i], columns_mask)
  {
    seq(|mat|, i requires 0 <= i < |mat| => Select(mat[i], columns_mask))
  }

  /** Picking rows first and columns second gives the same block. */
  lemma {:induction false} KijOrder(mat: seq<seq<real>>, rows_mask: seq<bool>, columns_mask: seq<bool>)
    ensures Kij(mat, rows_mask, columns_mask) == SelectColumns(Select(mat, rows_mask), columns_mask)
  {
    if |mat| > 0 && |rows_mask| > 0 {
      KijOrder(mat[1..], rows_mask[1..], columns_mask);
      assert SelectColumns(mat, columns_mask)[1..] == SelectColumns(mat[1..], columns_mask);
      if rows_mask[0] {
        assert Select(mat, rows_mask) == [mat[0]] + Select(mat[1..], rows_mask[1..]);
        assert SelectColumns([mat[0]] + Select(mat[1..], rows_mask[1..]), columns_mask)
          == [Select(mat[0], columns_mask)] + SelectColumns(Select(mat[1..], rows_mask[1..]), columns_mask);
      }
    }
  }

  /** For a rectangular matrix at least as large as the masks, the block
      has one row per masked row and one column per masked column. */
  lemma KijShape(mat: seq<seq<real>>, rows_mask: seq<bool>, columns_mask: seq<bool>)
    requires |mat| >= |rows_mask| && forall i :: 0 <= i < |mat| ==> |mat[i]| >= |columns_mask|
    ensures |Kij(mat, rows_mask, columns_mask)| == CountTrue(rows_mask)
    ensures forall i :: 0 <= i < |Kij(mat, rows_mask, columns_mask)| ==>
      |Kij(mat, rows_mask, columns_mask)[i]| == CountTrue(columns_mask)
  {
    SelectLength(SelectColumns(mat, columns_mask), rows_mask);
    KijOrder(mat, rows_mask, columns_mask);
    var picked := Select(mat, rows_mask);
    forall i | 0 <= i < |picked| ensures |Select(picked[i], columns_mask)| == CountTrue(columns_mask) {
      assert picked[i] in mat;
      SelectLength(picked[i], columns_mask);
    }
  }
}
