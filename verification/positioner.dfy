/**
 The positioners of M2's adaptive secondary mirror: 42 actuators (six per
 segment) whose strokes follow the reference bodies' rigid body motions
 through a 42×42 transform; each is seen by the FEM as a pair of nodes and
 drives them with a pair of opposite forces.
 */
module Positioner {
  import opened Common

  /** Number of positioners, and of rigid body motions. */
  const Count: nat := 42

  /** `AsmsPositioners`: the transform `r2p` (rows of the matrix), the
      internal state of every positioner's generated code with its input
      and output, the rigid body motions, and the measured positioner
      strokes. */
  datatype Positioners<S> = Positioners(
    r2p: seq<seq<real>>,
    states: seq<S>,
    inputs: seq<real>,
    outputs: seq<real>,
    rbm: seq<real>,
    nodes: seq<real>)

  /** The shapes the static types of the source fix. */
  predicate Shaped<S>(p: Positioners<S>) {
    && |p.r2p| == Count
    && (forall i :: 0 <= i < Count ==> |p.r2p[i]| == Count)
    && |p.states| == Count && |p.inputs| == Count && |p.outputs| == Count && |p.rbm| == Count
  }

  function Dot(a: seq<real>, b: seq<real>): real
    requires |a| == |b|
  {
    if |a| == 0 then 0.0 else a[0] * b[0] + Dot(a[1..], b[1..])
  }

  lemma {:induction false} DotZero(a: seq<real>, b: seq<real>)
    requires |a| == |b| && forall k :: 0 <= k < |b| ==> b[k] == 0.0
    ensures Dot(a, b) == 0.0
  {
    if |a| > 0 {
      DotZero(a[1..], b[1..]);
    }
  }

  /** `r2p * rbm`: the positioner strokes the rigid body motions call for. */
  function Strokes<S>(p: Positioners<S>): (r: seq<real>)
    requires Shaped(p)
    ensures |r| == Count
    ensures forall i :: 0 <= i < Count ==> r[i] == Dot(p.r2p[i], p.rbm)
  {
    seq(42, i requires 0 <= i < 42 => Dot(p.r2p[i], p.rbm))
  }

  /** `AsmsPositioners::new`: 42 positioners in the initial state `init`
      of their generated code, no motion and 84 node displacements at
      zero. A fresh positioner's input and output are taken to be zero. */
  function New<S>(r2p: seq<seq<real>>, init: S): (p: Positioners<S>)
    requires |r2p| == Count && forall i :: 0 <= i < Count ==> |r2p[i]| == Count
    ensures Shaped(p) && p.r2p == r2p
    ensures forall k :: 0 <= k < Count ==> p.states[k] == init
    ensures p.inputs == p.outputs == p.rbm == Repeat(0.0, Count)
    ensures p.nodes == Repeat(0.0, 2 * Count)
  {
    Positioners(r2p, seq(42, _ => init), Repeat(0.0, 42), Repeat(0.0, 42), Repeat(0.0, 42), Repeat(0.0, 84))
  }

  /** `update`: positioner `k` is fed the stroke error
      `(r2p·rbm)[k] - nodes[k]` and stepped, for as many positioners as
      there are measured strokes (`zip` stops at the shorter side); the
      others keep their state. A positioner's dynamics are the generated
      code of its model, given here as `step` from its state and input to
      its next state and its output. */
  function Update<S>(p: Positioners<S>, step: (S, real) -> (S, real)): (r: Positioners<S>)
    requires Shaped(p)
    ensures Shaped(r) && r.r2p == p.r2p && r.rbm == p.rbm && r.nodes == p.nodes
    ensures forall k :: 0 <= k < Min(Count, |p.nodes|) ==>
      && r.inputs[k] == Dot(p.r2p[k], p.rbm) - p.nodes[k]
      && r.states[k] == step(p.states[k], r.inputs[k]).0
      && r.outputs[k] == step(p.states[k], r.inputs[k]).1
    ensures forall k :: Min(Count, |p.nodes|) <= k < Count ==>
      r.states[k] == p.states[k] && r.inputs[k] == p.inputs[k] && r.outputs[k] == p.outputs[k]
  {
    var deltas := Diff(Strokes(p), p.nodes);
    p.(states := seq(42, k requires 0 <= k < 42 => if k < |deltas| then step(p.states[k], deltas[k]).0 else p.states[k]),
       inputs := seq(42, k requires 0 <= k < 42 => if k < |deltas| then deltas[k] else p.inputs[k]),
       outputs := seq(42, k requires 0 <= k < 42 => if k < |deltas| then step(p.states[k], deltas[k]).1 else p.outputs[k]))
  }

  /** At start-up, before any reading, every positioner is fed a zero
      error: the 84 zero nodes cover all 42 positioners and there is no
      motion yet. */
  lemma FreshUpdateAtRest<S>(r2p: seq<seq<real>>, init: S, step: (S, real) -> (S, real))
    requires |r2p| == Count && forall i :: 0 <= i < Count ==> |r2p[i]| == Count
    ensures Update(New(r2p, init), step).inputs == Repeat(0.0, Count)
    ensures forall k :: 0 <= k < Count ==>
      Update(New(r2p, init), step).outputs[k] == step(init, 0.0).1 && Update(New(r2p, init), step).states[k] == step(init, 0.0).0
  {
    var p := New(r2p, init);
    forall i | 0 <= i < Count ensures Dot(r2p[i], p.rbm) == 0.0 {
      DotZero(r2p[i], p.rbm);
    }
  }

  /** `Read<M2RigidBodyMotions>`: exactly 42 values, as a column. */
  function ReadRbm<S>(p: Positioners<S>, data: seq<real>): (r: Positioners<S>)
    requires |data| == Count
    ensures r == p.(rbm := data)
  {
    p.(rbm := data)
  }

  /** `Read<M2PositionerNodes>`: each positioner's stroke is the
      displacement of its first node less that of its second. A trailing
      odd node would panic. */
  function ReadNodes<S>(p: Positioners<S>, data: seq<real>): (r: Positioners<S>)
    requires |data| % 2 == 0
    ensures r == p.(nodes := r.nodes)
    ensures |r.nodes| == |data| / 2
    ensures forall k :: 0 <= k < |r.nodes| ==> r.nodes[k] == data[2 * k] - data[2 * k + 1]
  {
    p.(nodes := Diff(Evens(data), Odds(data)))
  }

  /** `Write<M2PositionerForces>`: each positioner's output `u` as the
      pair `[u, -u]`. */
  function WriteForces<S>(p: Positioners<S>): (r: Option<seq<real>>)
    ensures r.Some? && |r.value| == 2 * |p.outputs|
    ensures forall k :: 0 <= k < |p.outputs| ==> r.value[2 * k] == p.outputs[k] && r.value[2 * k + 1] == -p.outputs[k]
  {
    Some(Interleave(p.outputs, Negate(p.outputs)))
  }

  /** The node pairs are read with the orientation the forces are written
      with: the forces read back as node data give twice the outputs, one
      stroke per positioner. */
  lemma ForcesReadBack<S>(p: Positioners<S>, q: Positioners<S>)
    ensures |ReadNodes(q, WriteForces(p).value).nodes| == |p.outputs|
    ensures forall k :: 0 <= k < |p.outputs| ==> ReadNodes(q, WriteForces(p).value).nodes[k] == 2.0 * p.outputs[k]
    ensures Evens(WriteForces(p).value) == p.outputs && Odds(WriteForces(p).value) == Negate(p.outputs)
  {
    InterleaveSplit(p.outputs, Negate(p.outputs));
  }

  /** Once the FEM's 84 node displacements are read, every positioner is
      updated; and when the strokes match what the motions call for, all
      the errors are zero. */
  lemma UpdateTracking<S>(p: Positioners<S>, data: seq<real>, step: (S, real) -> (S, real))
    requires Shaped(p) && |data| == 2 * Count
    ensures var r := Update(ReadNodes(p, data), step);
      forall k :: 0 <= k < Count ==> r.inputs[k] == Dot(p.r2p[k], p.rbm) - (data[2 * k] - data[2 * k + 1])
    ensures Diff(Evens(data), Odds(data)) == Strokes(p) ==>
      Update(ReadNodes(p, data), step).inputs == Repeat(0.0, Count)
  {
  }

  /** Reading the rigid body motions sets the strokes the next update
      aims at: with every stroke measured, positioner `k` is fed its row
      of the transform against the motions read, less its measured
      stroke, and is stepped on that error. */
  lemma RbmDrivesUpdate<S>(p: Positioners<S>, x: seq<real>, step: (S, real) -> (S, real))
    requires Shaped(p) && |x| == Count && |p.nodes| >= Count
    ensures Shaped(ReadRbm(p, x)) && Strokes(ReadRbm(p, x)) == Strokes(p.(rbm := x))
    ensures forall k :: 0 <= k < Count ==>
      && Update(ReadRbm(p, x), step).inputs[k] == Strokes(ReadRbm(p, x))[k] - p.nodes[k]
      && Update(ReadRbm(p, x), step).outputs[k] == step(p.states[k], Strokes(ReadRbm(p, x))[k] - p.nodes[k]).1
    ensures (forall k :: 0 <= k < Count ==> p.nodes[k] == Strokes(ReadRbm(p, x))[k]) ==>
      Update(ReadRbm(p, x), step).inputs == Repeat(0.0, Count)
  {
    var q := ReadRbm(p, x);
    assert Min(Count, |q.nodes|) == Count;
  }
}
