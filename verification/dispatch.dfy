/**
 M1 assembly dispatch: `DispatchIn` cuts the assembly-wide rigid body
 motions and actuator command forces into one vector per segment of the
 assembly, and `DispatchOut` gathers per-segment applied forces back into an
 assembly-wide list. The assembly is the list `SIDS` of its segment ids
 (1 to 7); the `Assembly` trait that supplies it is not part of this model,
 so `sids` is a parameter.
 */
module Dispatch {
  import opened Common

  /** Actuators per segment: six outer segments of 335 and the center
      segment of 306. */
  const NA: seq<nat> := [335, 335, 335, 335, 335, 335, 306]

  /** Rigid body motions per segment. */
  const RbmSize: nat := 6

  /** Segment ids are 1 to 7 (indexing `NA` and `idx` panics otherwise). */
  predicate ValidSids(sids: seq<nat>) {
    forall k :: 0 <= k < |sids| ==> 1 <= sids[k] <= 7
  }

  /** No segment listed twice. */
  predicate Distinct(sids: seq<nat>) {
    forall j, k :: 0 <= j < k < |sids| ==> sids[j] != sids[k]
  }

  /** `position::<ID>()`: where segment `id` sits in the assembly. */
  function Position(sids: seq<nat>, id: nat): (r: Option<nat>)
    ensures r.None? <==> id !in sids
    ensures r.Some? ==> r.value < |sids| && sids[r.value] == id && forall j :: 0 <= j < r.value ==> sids[j] != id
  {
    if |sids| == 0 then None
    else if sids[0] == id then Some(0)
    else
      var p := Position(sids[1..], id);
      if p.None? then None else Some(p.value + 1)
  }

  /** The sum of the sizes. */
  function Total(sizes: seq<nat>): nat {
    if |sizes| == 0 then 0 else sizes[0] + Total(sizes[1..])
  }

  /** `n` zeros. */
  function Zeros(n: nat): (r: seq<real>)
    ensures |r| == n && forall k :: 0 <= k < n ==> r[k] == 0.0
  {
    Repeat(0.0, n)
  }

  /** `DispatchIn`: per-segment rigid body motions, actuator command
      forces and hardpoint motions, and `idx[id - 1]`, the position of
      segment `id`. */
  datatype DispatchIn = DispatchIn(
    rbm: seq<seq<real>>,
    forces: seq<seq<real>>,
    hardpoints: seq<seq<real>>,
    idx: seq<nat>)

  /** The `idx` table after the first `k` segments have been entered: each
      listed segment maps to its (last) position, every other to 0. */
  function IndexTable(sids: seq<nat>, k: nat): (r: seq<nat>)
    requires ValidSids(sids) && k <= |sids|
    ensures |r| == 7
    ensures forall j :: 0 <= j < k && (forall l :: j < l < k ==> sids[l] != sids[j]) ==> r[sids[j] - 1] == j
    ensures forall id :: 1 <= id <= 7 && id !in sids[..k] ==> r[id - 1] == 0
  {
    if k == 0 then Repeat(0, 7)
    else
      assert forall id :: id !in sids[..k] ==> id !in sids[..k - 1] && id != sids[k - 1] by {
        assert sids[..k] == sids[..k - 1] + [sids[k - 1]];
      }
      IndexTable(sids, k - 1)[sids[k - 1] - 1 := k - 1]
  }

  /** `DispatchIn::new`: zero motions and forces sized per segment, no
      hardpoint motions yet, and the position table. */
  function NewIn(sids: seq<nat>): (d: DispatchIn)
    requires ValidSids(sids)
    ensures |d.rbm| == |sids| && forall k :: 0 <= k < |sids| ==> d.rbm[k] == Zeros(RbmSize)
    ensures |d.forces| == |sids| && forall k :: 0 <= k < |sids| ==> d.forces[k] == Zeros(NA[sids[k] - 1])
    ensures d.hardpoints == []
    ensures |d.idx| == 7
  {
    DispatchIn(
      seq(|sids|, k requires 0 <= k < |sids| => Zeros(RbmSize)),
      seq(|sids|, k requires 0 <= k < |sids| => Zeros(NA[sids[k] - 1])),
      [],
      IndexTable(sids, |sids|))
  }

  /** For an assembly without repeats the table gives every segment's
      position. */
  lemma NewInIndex(sids: seq<nat>)
    requires ValidSids(sids) && Distinct(sids)
    ensures forall k :: 0 <= k < |sids| ==> NewIn(sids).idx[sids[k] - 1] == k
    ensures forall id :: 1 <= id <= 7 && id in sids ==> NewIn(sids).idx[id - 1] == Position(sids, id).value
  {
    var t := IndexTable(sids, |sids|);
    assert NewIn(sids).idx == t;
    forall k | 0 <= k < |sids| ensures t[sids[k] - 1] == k {
      assert forall l :: k < l < |sids| ==> sids[l] != sids[k];
    }
    forall id | 1 <= id <= 7 && id in sids ensures t[id - 1] == Position(sids, id).value {
      var p := Position(sids, id).value;
      assert t[sids[p] - 1] == p;
    }
  }

  /** Consecutive slices of `data` of the given sizes (`split_at` panics
      past the end). */
  function Slices(data: seq<real>, sizes: seq<nat>): (r: seq<seq<real>>)
    requires Total(sizes) <= |data|
    ensures |r| == |sizes| && forall k :: 0 <= k < |sizes| ==> |r[k]| == sizes[k]
    ensures Flatten(r) == data[..Total(sizes)]
  {
    if |sizes| == 0 then []
    else
      var rest := Slices(data[sizes[0]..], sizes[1..]);
      assert ([data[..sizes[0]]] + rest)[1..] == rest;
      assert data[..sizes[0]] + data[sizes[0]..][..Total(sizes[1..])] == data[..Total(sizes)];
      [data[..sizes[0]]] + rest
  }

  /** `Read<M1RigidBodyMotions>`: consecutive 6-value slices, one per
      segment of the assembly. */
  function ReadRbm(d: DispatchIn, data: seq<real>): (r: DispatchIn)
    requires Total(Repeat(RbmSize, |d.rbm|)) <= |data|
    ensures r == d.(rbm := r.rbm)
    ensures |r.rbm| == |d.rbm| && forall k :: 0 <= k < |d.rbm| ==> |r.rbm[k]| == RbmSize
    ensures Flatten(r.rbm) + data[Total(Repeat(RbmSize, |d.rbm|))..] == data
  {
    d.(rbm := Slices(data, Repeat(RbmSize, |d.rbm|)))
  }

  /** The slice sizes `Read<M1ActuatorCommandForces>` uses: `NA` from its
      first entry on, zipped with the segments, whatever the segments
      are. */
  function ForceSizesAsWritten(sids: seq<nat>): (r: seq<nat>)
    ensures |r| == Min(7, |sids|) && forall k :: 0 <= k < |r| ==> r[k] == NA[k]
  {
    NA[..Min(7, |sids|)]
  }

  /** The slice sizes that match the segments: `NA[id - 1]` for each. */
  function ForceSizes(sids: seq<nat>): (r: seq<nat>)
    requires ValidSids(sids)
    ensures |r| == |sids| && forall k :: 0 <= k < |sids| ==> r[k] == NA[sids[k] - 1]
  {
    seq(|sids|, k requires 0 <= k < |sids| => NA[sids[k] - 1])
  }

  /** `Read<M1ActuatorCommandForces>` as written: the input is cut by `NA`
      in order. */
  function ReadForcesAsWritten(d: DispatchIn, sids: seq<nat>, data: seq<real>): (r: DispatchIn)
    requires |d.forces| == |sids| && Total(ForceSizesAsWritten(sids)) <= |data|
    ensures r == d.(forces := r.forces)
    ensures |r.forces| == |d.forces| && forall k :: 0 <= k < Min(7, |sids|) ==> |r.forces[k]| == NA[k]
  {
    var cut := Slices(data, ForceSizesAsWritten(sids));
    d.(forces := cut + d.forces[|cut|..])
  }

  /** `Read<M1ActuatorCommandForces>` cutting segment `k`'s share by its
      own actuator count, the size `new` gave its buffer. */
  function ReadForces(d: DispatchIn, sids: seq<nat>, data: seq<real>): (r: DispatchIn)
    requires ValidSids(sids) && Total(ForceSizes(sids)) <= |data|
    ensures r == d.(forces := r.forces)
    ensures |r.forces| == |sids| && forall k :: 0 <= k < |sids| ==> |r.forces[k]| == NA[sids[k] - 1]
    ensures Flatten(r.forces) + data[Total(ForceSizes(sids))..] == data
  {
    d.(forces := Slices(data, ForceSizes(sids)))
  }

  /** With the center segment alone, the assembly input holds its 306
      forces but the written read cuts 335: the slice runs past the end.
      The corrected read takes all 306. */
  lemma CenterSegmentForces()
    ensures Total(ForceSizesAsWritten([7])) == 335
    ensures Total(ForceSizes([7])) == 306
  {
    assert ForceSizesAsWritten([7]) == [335];
    assert ForceSizes([7]) == [306];
  }

  /** For the full assembly both reads cut the same way. */
  lemma FullAssemblyForceSizes()
    ensures ForceSizesAsWritten([1, 2, 3, 4, 5, 6, 7]) == ForceSizes([1, 2, 3, 4, 5, 6, 7])
  {
  }

  /** `Write<RBM<ID>>`: segment `id`'s motions, or nothing when it is not
      part of the assembly. */
  function WriteRbm(d: DispatchIn, sids: seq<nat>, id: nat): (r: Option<seq<real>>)
    ensures id !in sids ==> r.None?
    ensures r.Some? ==> exists k :: 0 <= k < |sids| && k < |d.rbm| && sids[k] == id && r.value == d.rbm[k]
  {
    var p := Position(sids, id);
    if p.Some? && p.value < |d.rbm| then Some(d.rbm[p.value]) else None
  }

  /** `Write<HardpointsMotion<ID>>`: the same rule on the hardpoint
      motions. */
  function WriteHardpoints(d: DispatchIn, sids: seq<nat>, id: nat): (r: Option<seq<real>>)
    ensures id !in sids ==> r.None?
    ensures id in sids ==> (r.Some? <==> Position(sids, id).value < |d.hardpoints|)
    ensures r.Some? ==> r.value == d.hardpoints[Position(sids, id).value]
  {
    var p := Position(sids, id);
    if p.Some? && p.value < |d.hardpoints| then Some(d.hardpoints[p.value]) else None
  }

  /** Reading the assembly motions and writing segment `sids[k]`'s gives
      the `k`-th 6-value slice. */
  lemma RbmRoundTrip(d: DispatchIn, sids: seq<nat>, data: seq<real>, k: nat)
    requires ValidSids(sids) && Distinct(sids) && |d.rbm| == |sids| && k < |sids|
    requires Total(Repeat(RbmSize, |sids|)) <= |data|
    ensures WriteRbm(ReadRbm(d, data), sids, sids[k]) == Some(Slices(data, Repeat(RbmSize, |sids|))[k])
  {
    var p := Position(sids, sids[k]);
    assert p.value == k;
  }

  /** `Read<ActuatorCommandForces<ID>>` as written: stored at `id - 1`
      (out of range panics). */
  function ReadSegmentForcesAsWritten(d: DispatchIn, id: nat, x: seq<real>): (r: DispatchIn)
    requires 1 <= id <= |d.forces|
    ensures r == d.(forces := d.forces[id - 1 := x])
  {
    d.(forces := d.forces[id - 1 := x])
  }

  /** `Read<ActuatorCommandForces<ID>>` stored where the matching write
      looks: at the segment's position. */
  function ReadSegmentForces(d: DispatchIn, id: nat, x: seq<real>): (r: DispatchIn)
    requires 1 <= id <= |d.idx| && d.idx[id - 1] < |d.forces|
    ensures r == d.(forces := r.forces) && |r.forces| == |d.forces|
    ensures r.forces[d.idx[id - 1]] == x
    ensures forall k :: 0 <= k < |d.forces| && k != d.idx[id - 1] ==> r.forces[k] == d.forces[k]
  {
    d.(forces := d.forces[d.idx[id - 1] := x])
  }

  /** `Write<ActuatorCommandForces<ID>>`: the forces at the segment's
      position (out of range panics). */
  function WriteSegmentForces(d: DispatchIn, id: nat): (r: Option<seq<real>>)
    requires 1 <= id <= |d.idx| && d.idx[id - 1] < |d.forces|
    ensures r.Some? && r.value == d.forces[d.idx[id - 1]]
  {
    Some(d.forces[d.idx[id - 1]])
  }

  /** Corrected read and write agree: what segment `id` reads, it writes,
      and the other segments keep theirs. */
  lemma SegmentForcesRoundTrip(sids: seq<nat>, id: nat, other: nat, x: seq<real>)
    requires ValidSids(sids) && Distinct(sids) && id in sids && other in sids && other != id
    ensures var d := NewIn(sids);
      && d.idx[id - 1] < |d.forces| && d.idx[other - 1] < |d.forces|
      && WriteSegmentForces(ReadSegmentForces(d, id, x), id) == Some(x)
      && WriteSegmentForces(ReadSegmentForces(d, id, x), other) == WriteSegmentForces(d, other)
  {
    NewInIndex(sids);
    var i :| 0 <= i < |sids| && sids[i] == id;
    var o :| 0 <= o < |sids| && sids[o] == other;
  }

  /** For the assembly of segments 2 and 3, forces read for segment 2 as
      written land in segment 3's slot: writing segment 2 still gives its
      335 zeros. */
  lemma SegmentForcesMisplaced()
    ensures var d := NewIn([2, 3]);
      && WriteSegmentForces(ReadSegmentForcesAsWritten(d, 2, [1.0]), 2) == Some(Zeros(335))
      && WriteSegmentForces(ReadSegmentForcesAsWritten(d, 2, [1.0]), 3) == Some([1.0])
  {
    NewInIndex([2, 3]);
    var d := NewIn([2, 3]);
    assert d.idx[1] == 0 && d.idx[2] == 1;
  }

  /** `DispatchOut`: per-segment applied forces and hardpoint forces. */
  datatype DispatchOut = DispatchOut(applied: seq<seq<real>>, hardpoints: seq<seq<real>>)

  /** `DispatchOut::new`: an empty vector per segment. */
  function NewOut(sids: seq<nat>): (d: DispatchOut)
    ensures |d.applied| == |sids| && |d.hardpoints| == |sids|
    ensures forall k :: 0 <= k < |sids| ==> d.applied[k] == [] && d.hardpoints[k] == []
  {
    DispatchOut(Repeat([], |sids|), Repeat([], |sids|))
  }

  /** `Read<ActuatorAppliedForces<ID>>`: stored at the segment's position;
      ignored for a segment outside the assembly. */
  function ReadApplied(d: DispatchOut, sids: seq<nat>, id: nat, x: seq<real>): (r: DispatchOut)
    requires |d.applied| == |sids|
    ensures r == d.(applied := r.applied) && |r.applied| == |sids|
    ensures id !in sids ==> r == d
    ensures id in sids ==> r.applied == d.applied[Position(sids, id).value := x]
  {
    var p := Position(sids, id);
    if p.Some? then d.(applied := d.applied[p.value := x]) else d
  }

  /** `Read<HardpointsForces<ID>>` */
  function ReadHardpointForces(d: DispatchOut, sids: seq<nat>, id: nat, x: seq<real>): (r: DispatchOut)
    requires |d.hardpoints| == |sids|
    ensures r == d.(hardpoints := r.hardpoints) && |r.hardpoints| == |sids|
    ensures id !in sids ==> r == d
    ensures id in sids ==> r.hardpoints == d.hardpoints[Position(sids, id).value := x]
  {
    var p := Position(sids, id);
    if p.Some? then d.(hardpoints := d.hardpoints[p.value := x]) else d
  }

  /** Reading every segment's applied forces in turn assembles them in
      assembly order. */
  lemma GatherApplied(sids: seq<nat>, xs: seq<seq<real>>, k: nat)
    requires Distinct(sids) && |xs| == |sids| && k <= |sids|
    ensures var d := GatherFirst(NewOut(sids), sids, xs, k);
      && |d.applied| == |sids|
      && (forall j :: 0 <= j < k ==> d.applied[j] == xs[j])
      && (forall j :: k <= j < |sids| ==> d.applied[j] == [])
    decreases k
  {
    if k > 0 {
      GatherApplied(sids, xs, k - 1);
      var p := Position(sids, sids[k - 1]);
      assert p.value == k - 1;
    }
  }

  /** The state after reading the applied forces of the first `k`
      segments. */
  function GatherFirst(d: DispatchOut, sids: seq<nat>, xs: seq<seq<real>>, k: nat): (r: DispatchOut)
    requires |d.applied| == |sids| && |xs| == |sids| && k <= |sids|
    ensures |r.applied| == |sids|
  {
    if k == 0 then d else ReadApplied(GatherFirst(d, sids, xs, k - 1), sids, sids[k - 1], xs[k - 1])
  }

  /** `Write<M1ActuatorAppliedForces>`: every segment's applied forces. */
  function WriteApplied(d: DispatchOut): (r: Option<seq<seq<real>>>)
    ensures r == Some(d.applied)
  {
    Some(d.applied)
  }

  /** `Write<M1HardpointsForces>`: every segment's hardpoint forces. */
  function WriteHardpointForces(d: DispatchOut): (r: Option<seq<seq<real>>>)
    ensures r == Some(d.hardpoints)
  {
    Some(d.hardpoints)
  }

  /** Once every segment of the assembly has sent its applied forces, the
      write hands them out in assembly order. */
  lemma WriteGathered(sids: seq<nat>, xs: seq<seq<real>>)
    requires Distinct(sids) && |xs| == |sids|
    ensures WriteApplied(GatherFirst(NewOut(sids), sids, xs, |sids|)) == Some(xs)
  {
    GatherApplied(sids, xs, |sids|);
    var d := GatherFirst(NewOut(sids), sids, xs, |sids|);
    assert d.applied == xs;
  }

  /** What a segment of the assembly sends is written at its position, the
      other segments' forces are written as they were, and a segment
      outside the assembly changes nothing written. */
  lemma ReadThenWrite(d: DispatchOut, sids: seq<nat>, id: nat, x: seq<real>)
    requires |d.applied| == |sids| && |d.hardpoints| == |sids|
    ensures id in sids ==>
      && WriteApplied(ReadApplied(d, sids, id, x)).value[Position(sids, id).value] == x
      && WriteHardpointForces(ReadHardpointForces(d, sids, id, x)).value[Position(sids, id).value] == x
    ensures forall j :: 0 <= j < |sids| && sids[j] != id ==>
      && WriteApplied(ReadApplied(d, sids, id, x)).value[j] == d.applied[j]
      && WriteHardpointForces(ReadHardpointForces(d, sids, id, x)).value[j] == d.hardpoints[j]
  {
    if id in sids {
      var p := Position(sids, id).value;
      assert sids[p] == id;
    }
  }
}
