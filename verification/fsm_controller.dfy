/**
 The inner controller of one segment of M2's fast steering mirror: three
 piezostack actuators, each seen by the FEM as a pair of nodes and driven
 by a pair of opposite forces. The controller tuning depends on the
 segment: one for the odd outer segments, one for the even outer
 segments, one for the centre segment.
 */
module FsmController {
  import opened Common

  /** Number of piezostacks of a segment. */
  const Piezostacks: nat := 3

  /** `Size` of the piezostack node displacements, the command and the
      piezostack forces. */
  const NodesSize: nat := 6
  const CommandSize: nat := 3
  const ForcesSize: nat := 6

  /** The three controller tunings. */
  datatype PiezoKind = OuterOdd | OuterEven | Center

  /** `PiezoStackController::new`: segment 7 is the centre one, the others
      take the tuning of their parity; segment ids outside `1..=7` panic. */
  function KindOf(sid: nat): (k: PiezoKind)
    requires 0 < sid < 8
    ensures k == Center <==> sid == 7
  {
    if sid == 7 then Center
    else if sid % 2 == 0 then OuterEven
    else OuterOdd
  }

  /** Two segments share a tuning exactly when they are the same segment or
      two outer segments of the same parity. */
  lemma SharedTuning(s1: nat, s2: nat)
    requires 0 < s1 < 8 && 0 < s2 < 8
    ensures KindOf(s1) == KindOf(s2) <==> s1 == s2 || (s1 < 7 && s2 < 7 && s1 % 2 == s2 % 2)
  {
  }

  /** `FsmSegmentInnerController<ID>`: the piezostack controller, of
      tuning `piezo` and with the internal state `ctrl` of its generated
      code, the piezostack forces, the measured piezostack strokes and the
      commanded strokes. */
  datatype Segment<S> = Segment(id: nat, piezo: PiezoKind, ctrl: S, forces: seq<real>, nodes: seq<real>, command: seq<real>)

  /** `FsmSegmentInnerController::new`: the controller in the initial state
      `init` of its generated code, everything else at zero. */
  function New<S>(id: nat, init: S): (s: Segment<S>)
    requires 0 < id < 8
    ensures s.id == id && s.piezo == KindOf(id) && s.ctrl == init
    ensures s.forces == s.nodes == s.command == Repeat(0.0, Piezostacks)
  {
    Segment(id, KindOf(id), init, Repeat(0.0, 3), Repeat(0.0, 3), Repeat(0.0, 3))
  }

  /** The stroke errors `command - nodes` of the three piezostacks (the
      controller copies exactly three values in). */
  function Errors<S>(s: Segment<S>): (e: seq<real>)
    requires |s.command| >= Piezostacks && |s.nodes| >= Piezostacks
    ensures |e| == Piezostacks
    ensures forall k :: 0 <= k < Piezostacks ==> e[k] == s.command[k] - s.nodes[k]
  {
    Diff(s.command, s.nodes)[..3]
  }

  /** `update`: the stroke errors go through one step of the piezostack
      controller, which moves to its next state; its three outputs become
      the forces. The controller's dynamics are the generated code of its
      tuning, given here as `step` from state and input to the next state
      and the output. */
  function Update<S>(s: Segment<S>, step: (S, seq<real>) -> (S, seq<real>)): (r: Segment<S>)
    requires |s.command| >= Piezostacks && |s.nodes| >= Piezostacks && |s.forces| >= Piezostacks
    requires |step(s.ctrl, Errors(s)).1| >= Piezostacks
    ensures r == s.(ctrl := r.ctrl, forces := r.forces)
    ensures r.ctrl == step(s.ctrl, Errors(s)).0
    ensures |r.forces| == |s.forces|
    ensures forall k :: 0 <= k < Piezostacks ==> r.forces[k] == step(s.ctrl, Errors(s)).1[k]
    ensures forall k :: Piezostacks <= k < |s.forces| ==> r.forces[k] == s.forces[k]
  {
    var (next, y) := step(s.ctrl, Errors(s));
    s.(ctrl := next, forces := y[..3] + s.forces[3..])
  }

  /** When the strokes follow the command, the controller sees no error. */
  lemma UpdateAtRest<S>(s: Segment<S>, step: (S, seq<real>) -> (S, seq<real>))
    requires |s.command| >= Piezostacks && |s.forces| >= Piezostacks
    requires s.nodes == s.command && |step(s.ctrl, Repeat(0.0, Piezostacks)).1| >= Piezostacks
    ensures Errors(s) == Repeat(0.0, Piezostacks)
    ensures Update(s, step).ctrl == step(s.ctrl, Repeat(0.0, Piezostacks)).0
    ensures Update(s, step).forces[..Piezostacks] == step(s.ctrl, Repeat(0.0, Piezostacks)).1[..Piezostacks]
  {
    assert Errors(s) == Repeat(0.0, 3);
  }

  /** `Read<PiezoNodes>`: each piezostack's stroke is the displacement of
      its second node less that of its first. A trailing odd node would
      panic. */
  function ReadNodes<S>(s: Segment<S>, data: seq<real>): (r: Segment<S>)
    requires |data| % 2 == 0
    ensures r == s.(nodes := r.nodes)
    ensures |r.nodes| == |data| / 2
    ensures forall k :: 0 <= k < |r.nodes| ==> r.nodes[k] == data[2 * k + 1] - data[2 * k]
  {
    s.(nodes := Diff(Odds(data), Evens(data)))
  }

  /** `Read<FsmCommand>` */
  function ReadCommand<S>(s: Segment<S>, data: seq<real>): (r: Segment<S>)
    ensures r == s.(command := data)
  {
    s.(command := data)
  }

  /** `Write<PiezoForces>`: each piezostack pushes its two nodes apart with
      opposite forces, `-f` on the first and `f` on the second. */
  function WriteForces<S>(s: Segment<S>): (r: Option<seq<real>>)
    ensures r.Some? && |r.value| == 2 * |s.forces|
    ensures forall k :: 0 <= k < |s.forces| ==> r.value[2 * k] == -s.forces[k] && r.value[2 * k + 1] == s.forces[k]
  {
    Some(Interleave(Negate(s.forces), s.forces))
  }

  /** The node pairs are read with the orientation the forces are written
      with: a force pattern read back as node data gives twice the forces,
      and splitting it gives back the opposite pairs. */
  lemma ForcesReadBack<S>(s: Segment<S>, t: Segment<S>)
    ensures |ReadNodes(t, WriteForces(s).value).nodes| == |s.forces|
    ensures forall k :: 0 <= k < |s.forces| ==> ReadNodes(t, WriteForces(s).value).nodes[k] == 2.0 * s.forces[k]
    ensures Evens(WriteForces(s).value) == Negate(s.forces) && Odds(WriteForces(s).value) == s.forces
  {
    InterleaveSplit(Negate(s.forces), s.forces);
  }

  /** The sizes fit together: a fresh controller writes `ForcesSize`
      forces, and `NodesSize` node displacements make one stroke per
      entry of the `CommandSize` command. */
  lemma SizesAgree<S>(id: nat, init: S, data: seq<real>)
    requires 0 < id < 8 && |data| == NodesSize
    ensures |WriteForces(New(id, init)).value| == ForcesSize
    ensures |ReadNodes(New(id, init), data).nodes| == CommandSize == Piezostacks
  {
  }

  /** One control cycle: the strokes read from the six node displacements
      and the command read, an update steps the controller on the errors
      command less stroke, which are zero when the strokes follow the
      command. */
  lemma CycleErrors<S>(s: Segment<S>, data: seq<real>, c: seq<real>, step: (S, seq<real>) -> (S, seq<real>))
    requires |data| == NodesSize && |c| == CommandSize && |s.forces| >= Piezostacks
    ensures var t := ReadCommand(ReadNodes(s, data), c);
      && |t.nodes| == Piezostacks
      && (forall k :: 0 <= k < Piezostacks ==> Errors(t)[k] == c[k] - (data[2 * k + 1] - data[2 * k]))
      && (|step(s.ctrl, Errors(t)).1| >= Piezostacks ==>
            && Update(t, step).ctrl == step(s.ctrl, Errors(t)).0
            && Update(t, step).forces[..Piezostacks] == step(s.ctrl, Errors(t)).1[..Piezostacks])
    ensures (forall k :: 0 <= k < Piezostacks ==> c[k] == data[2 * k + 1] - data[2 * k]) ==>
      Errors(ReadCommand(ReadNodes(s, data), c)) == Repeat(0.0, Piezostacks)
  {
    var t := ReadCommand(ReadNodes(s, data), c);
    if |step(s.ctrl, Errors(t)).1| >= Piezostacks {
      var r := Update(t, step);
      assert r.forces[..3] == step(s.ctrl, Errors(t)).1[..3];
    }
  }
}
