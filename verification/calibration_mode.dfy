/**
 `CalibrationMode`: what a segment calibration pushes and pulls — up to
 six rigid body motions (RBM), a range of mirror modes, or the global
 tip-tilt — together with the index ranges, the command vectors and the
 merging of two RBM calibrations.
 */
module CalibrationModes {
  import opened Common

  /** The six rigid body motions Tx, Ty, Tz, Rx, Ry, Rz of a segment. */
  type Rbms = s: seq<Option<real>> | |s| == 6 witness [None, None, None, None, None, None]

  datatype CalibrationMode =
    | RBM(rbms: Rbms)
    | Modes(n_mode: nat, stroke: real, start_idx: nat, end_id: Option<nat>)
    | GlobalTipTilt(tt: real)

  /** Half-open index range `start..end`. */
  datatype Span = Span(start: nat, end: nat)
  /** Inclusive mode-number range `first..=last`. */
  datatype InclusiveSpan = InclusiveSpan(first: nat, last: nat)

  const NoRbm: Rbms := [None, None, None, None, None, None]

  /** `then_some`: a motion is calibrated only when its stroke is not zero. */
  function StrokeIfNonZero(stroke: real): Option<real> {
    if stroke != 0.0 then Some(stroke) else None
  }

  /** The RBM mode that calibrates the motions of `axes` with `stroke`. */
  function RbmOn(axes: set<nat>, stroke: real): (m: CalibrationMode)
    ensures m.RBM?
    ensures forall k :: 0 <= k < 6 ==>
      (m.rbms[k].Some? <==> k in axes && stroke != 0.0)
    ensures forall k :: 0 <= k < 6 && m.rbms[k].Some? ==> m.rbms[k].value == stroke
  {
    RBM(seq(6, k => if k in axes then StrokeIfNonZero(stroke) else None))
  }

  /** `t_xy`, `t_z`, `r_xy`, `r_z`: Tx & Ty, Tz, Rx & Ry and Rz. */
  function TXy(stroke: real): CalibrationMode { RbmOn({0, 1}, stroke) }
  function TZ(stroke: real): CalibrationMode { RbmOn({2}, stroke) }
  function RXy(stroke: real): CalibrationMode { RbmOn({3, 4}, stroke) }
  function RZ(stroke: real): CalibrationMode { RbmOn({5}, stroke) }

  /** `Default` and `empty_rbm`. */
  function EmptyRbm(): CalibrationMode { RBM(NoRbm) }

  predicate IsEmptyRbm(m: CalibrationMode) { m == RBM(NoRbm) }

  predicate IsEmptyModes(m: CalibrationMode) {
    m.Modes? && m.start_idx == m.n_mode
  }

  predicate IsEmpty(m: CalibrationMode) { IsEmptyRbm(m) || IsEmptyModes(m) }

  /** `modes(n_mode, stroke)`: a zero stroke starts past the last mode. */
  function ModesOf(n_mode: nat, stroke: real): (m: CalibrationMode)
    ensures m.Modes? && m.n_mode == n_mode && m.stroke == stroke && m.end_id.None?
    ensures m.start_idx <= ModesEnd(m)
    ensures IsEmptyModes(m) <==> (stroke == 0.0 || n_mode == 0)
    ensures CalibrationNMode(m) == (if stroke != 0.0 then n_mode else 0)
  {
    Modes(n_mode, stroke, if stroke != 0.0 then 0 else n_mode, None)
  }

  /** `empty_modes(n_mode)` */
  function EmptyModes(n_mode: nat): (m: CalibrationMode)
    ensures m.Modes? && m.start_idx <= ModesEnd(m)
    ensures IsEmptyModes(m) && IsEmpty(m) && CalibrationNMode(m) == 0
  {
    ModesOf(n_mode, 0.0)
  }

  /** `start_from(id)`: mode numbers are 1-based (`id - 1` underflows at 0). */
  function StartFrom(m: CalibrationMode, id: nat): (r: CalibrationMode)
    requires m.Modes? ==> id >= 1
    ensures !m.Modes? ==> r == m
    ensures m.Modes? ==> r == m.(start_idx := id - 1)
    ensures m.Modes? ==> ModeRange(r).first == id
  {
    if m.Modes? then m.(start_idx := id - 1) else m
  }

  /** `ends_at(id)` */
  function EndsAt(m: CalibrationMode, id: nat): (r: CalibrationMode)
    ensures !m.Modes? ==> r == m
    ensures m.Modes? ==> r == m.(end_id := Some(id))
    ensures m.Modes? ==> ModeRange(r).last == id && Range(r).end == id
  {
    if m.Modes? then m.(end_id := Some(id)) else m
  }

  /** `n_mode()`: the length of one command vector. */
  function NMode(m: CalibrationMode): (r: nat)
    ensures m.RBM? ==> r == |m.rbms|
    ensures m.Modes? ==> r == m.n_mode
    ensures m.GlobalTipTilt? ==> r == 2
  {
    match m
    case RBM(_) => 6
    case Modes(n, _, _, _) => n
    case GlobalTipTilt(_) => 2
  }

  function CountSome(s: seq<Option<real>>): (r: nat)
    ensures r <= |s|
  {
    if |s| == 0 then 0 else (if s[0].Some? then 1 else 0) + CountSome(s[1..])
  }

  /** A `Modes` calibration ends at `end_id`, or after the last mode. */
  function ModesEnd(m: CalibrationMode): nat
    requires m.Modes?
  {
    m.end_id.UnwrapOr(m.n_mode)
  }

  /** `calibration_n_mode()`; the `Modes` subtraction is on `usize` and
      panics when the start is past the end. */
  function CalibrationNMode(m: CalibrationMode): (r: nat)
    requires m.Modes? ==> m.start_idx <= ModesEnd(m)
    ensures m.RBM? ==> r == |SomeIndicesFrom(m.rbms, 0)| && r <= NMode(m)
    ensures m.Modes? ==> r == |Interval(m.start_idx, ModesEnd(m))|
  {
    match m
    case RBM(rbms) =>
      SomeIndicesCount(rbms, 0);
      assert rbms[0..] == rbms;
      CountSome(rbms)
    case Modes(_, _, start, _) => ModesEnd(m) - start
    case GlobalTipTilt(_) => 2
  }

  /** `range()` as written: `0..7` for RBM, although there are six motions
      and the calibrators index the stroke array with every element of it. */
  function RangeAsWritten(m: CalibrationMode): (r: Span)
    ensures m.RBM? ==> r.end == |m.rbms| + 1
    ensures m.Modes? && m.start_idx <= ModesEnd(m) ==> r.end - r.start == CalibrationNMode(m)
    ensures m.GlobalTipTilt? ==> r.end - r.start == NMode(m)
  {
    match m
    case RBM(_) => Span(0, 7)
    case Modes(_, _, start, _) => Span(start, ModesEnd(m))
    case GlobalTipTilt(_) => Span(0, 2)
  }

  /** `range()` with the RBM range corrected to the six motions `0..6`. */
  function Range(m: CalibrationMode): (r: Span)
    ensures !m.RBM? ==> r == RangeAsWritten(m)
    ensures m.RBM? ==> r.end - r.start == |m.rbms|
  {
    match m
    case RBM(_) => Span(0, 6)
    case _ => RangeAsWritten(m)
  }

  /** `mode_range()`: 1-based mode numbers. */
  function ModeRange(m: CalibrationMode): (r: InclusiveSpan)
    ensures !m.RBM? ==> r.first == RangeAsWritten(m).start + 1 && r.last == RangeAsWritten(m).end
    ensures m.RBM? ==> r.first == 1 && r.last == |m.rbms|
  {
    match m
    case RBM(_) => InclusiveSpan(1, 6)
    case Modes(_, _, start, _) => InclusiveSpan(start + 1, ModesEnd(m))
    case GlobalTipTilt(_) => InclusiveSpan(1, 2)
  }

  /** With the corrected range, `range` and `mode_range` name the same modes,
      0-based and 1-based, for every kind of calibration, and the RBM range
      only holds valid indices of the stroke array. */
  lemma RangeMatchesModeRange(m: CalibrationMode)
    ensures ModeRange(m).first == Range(m).start + 1
    ensures ModeRange(m).last == Range(m).end
    ensures m.RBM? ==> Range(m).end <= |m.rbms|
    ensures !m.Modes? ==> Range(m).end - Range(m).start == NMode(m)
  {
  }

  /** As written, the RBM range ends one past the last motion: it disagrees
      with `mode_range`, and its last index is outside the stroke array. */
  lemma RangeAsWrittenOverruns(rbms: Rbms)
    ensures var r := RangeAsWritten(RBM(rbms));
      r.end != ModeRange(RBM(rbms)).last && r.start <= 6 < r.end && 6 >= |rbms|
  {
  }

  /** Indices `k..` of the calibrated motions of `s`, in increasing order. */
  function SomeIndicesFrom(s: seq<Option<real>>, k: nat): (r: seq<nat>)
    ensures forall j :: 0 <= j < |r| ==> k <= r[j] < |s| && s[r[j]].Some?
    ensures forall i :: k <= i < |s| && s[i].Some? ==> i in r
    ensures forall j, j' :: 0 <= j < j' < |r| ==> r[j] < r[j']
    decreases |s| - k
  {
    if k >= |s| then []
    else (if s[k].Some? then [k] else []) + SomeIndicesFrom(s, k + 1)
  }

  lemma {:induction false} SomeIndicesCount(s: seq<Option<real>>, k: nat)
    requires k <= |s|
    ensures |SomeIndicesFrom(s, k)| == CountSome(s[k..])
    decreases |s| - k
  {
    if k < |s| {
      SomeIndicesCount(s, k + 1);
      assert s[k..][0] == s[k] && s[k..][1..] == s[k + 1..];
    }
  }

  /** `vec![0.0; n]` with `cmd[i] = v`. */
  function Unit(n: nat, i: nat, v: real): (r: seq<real>)
    requires i < n
    ensures |r| == n && r[i] == v
    ensures forall k :: 0 <= k < n && k != i ==> r[k] == 0.0
  {
    seq(n, k => if k == i then v else 0.0)
  }

  /** The command vector entries, in the order `command()` yields them:
      the calibrated motions for RBM, the range for `Modes`. */
  function CalibratedDofs(m: CalibrationMode): (r: seq<nat>)
    requires !m.GlobalTipTilt?
    ensures forall j :: 0 <= j < |r| ==> r[j] >= Range(m).start && r[j] < Range(m).end
    ensures forall j, j' :: 0 <= j < j' < |r| ==> r[j] < r[j']
    ensures m.RBM? ==> forall k :: 0 <= k < 6 ==> (k in r <==> m.rbms[k].Some?)
    ensures m.Modes? ==> forall k :: k in r <==> Range(m).start <= k < Range(m).end
  {
    match m
    case RBM(rbms) => SomeIndicesFrom(rbms, 0)
    case Modes(_, _, start, _) => Interval(start, ModesEnd(m))
  }

  /** The indices `start..end`, in order. */
  function Interval(start: nat, end: nat): (r: seq<nat>)
    ensures forall k :: k in r <==> start <= k < end
    ensures |r| == if start < end then end - start else 0
    ensures forall j :: 0 <= j < |r| ==> r[j] == start + j
    decreases end - start
  {
    if start < end then [start] + Interval(start + 1, end) else []
  }

  /** The stroke a calibrated entry is pushed by: its own motion's stroke
      for RBM, the common stroke for `Modes`. */
  function DofStroke(m: CalibrationMode, k: nat): real
    requires !m.GlobalTipTilt?
    requires m.RBM? ==> k < 6 && m.rbms[k].Some?
  {
    if m.RBM? then m.rbms[k].value else m.stroke
  }

  /** `v` is zero everywhere except at `i`, where it holds `x`. */
  predicate IsUnitAt(v: seq<real>, i: nat, x: real) {
    i < |v| && v[i] == x && forall k :: 0 <= k < |v| && k != i ==> v[k] == 0.0
  }

  /** `command()`: one vector per calibrated entry, zero everywhere except at
      that entry. Global tip-tilt is `unimplemented!`; a `Modes` range past
      `n_mode` indexes out of bounds. */
  function Command(m: CalibrationMode): (r: seq<seq<real>>)
    requires !m.GlobalTipTilt?
    requires m.Modes? && m.start_idx < ModesEnd(m) ==> ModesEnd(m) <= m.n_mode
    ensures m.Modes? ==> m.start_idx <= ModesEnd(m) ==> |r| == CalibrationNMode(m)
    ensures m.RBM? ==> |r| == CalibrationNMode(m)
    ensures forall j :: 0 <= j < |r| ==> |r[j]| == NMode(m)
    ensures forall j, k :: 0 <= j < |r| && 0 <= k < |r[j]| && r[j][k] != 0.0 ==>
      if m.RBM? then k < |m.rbms| && m.rbms[k].Some? && r[j][k] == m.rbms[k].value
      else Range(m).start <= k < Range(m).end && r[j][k] == m.stroke
    ensures |r| == |CalibratedDofs(m)|
    ensures forall j :: 0 <= j < |r| ==> IsUnitAt(r[j], CalibratedDofs(m)[j], DofStroke(m, CalibratedDofs(m)[j]))
  {
    var dofs := CalibratedDofs(m);
    seq(|dofs|, j requires 0 <= j < |dofs| =>
      Unit(NMode(m), dofs[j], if m.RBM? then m.rbms[dofs[j]].value else m.stroke))
  }

  /** `stroke_command()`: each command vector paired with its stroke. */
  function StrokeCommand(m: CalibrationMode): (r: seq<(real, seq<real>)>)
    requires !m.GlobalTipTilt?
    requires m.Modes? && m.start_idx < ModesEnd(m) ==> ModesEnd(m) <= m.n_mode
    ensures |r| == |Command(m)|
    ensures forall j :: 0 <= j < |r| ==> r[j].1 == Command(m)[j]
    ensures forall j :: 0 <= j < |r| ==> r[j].0 in r[j].1
    ensures forall j :: 0 <= j < |r| ==> r[j].0 == DofStroke(m, CalibratedDofs(m)[j])
  {
    var dofs := CalibratedDofs(m);
    var cmd := Command(m);
    var pairs := seq(|cmd|, j requires 0 <= j < |cmd| => (cmd[j][dofs[j]], cmd[j]));
    assert forall j :: 0 <= j < |pairs| ==> pairs[j].1[dofs[j]] == pairs[j].0;
    pairs
  }

  // ---------------------------------------------------------------------
  // Merging two RBM calibrations

  /** The RBM motions and the calibration columns after a merge. */
  datatype Merged<T> = Merged(rbms: seq<Option<real>>, c: seq<T>)

  /** The loop of `merge`: `left` is the motion array being overwritten, `c`
      the columns of `left` (one per calibrated motion, in order), `co` the
      columns of the other calibration still to be consumed, and `idx` the
      running column index. `None` stands for a panic (`c[idx]` out of
      bounds, `insert` past the end, or `co.next().unwrap()` on an exhausted
      iterator). `advanceOnInsert` chooses between the code as written
      (false) and the corrected one (true). */
  function MergeLoop<T>(left: seq<Option<real>>, right: seq<Option<real>>, k: nat, idx: nat,
                        c: seq<T>, co: seq<T>, advanceOnInsert: bool): Option<Merged<T>>
    requires |left| == |right| && k <= |left|
    decreases |left| - k
  {
    if k == |left| then Some(Merged(left, c))
    else if left[k].Some? && right[k].Some? then
      if idx < |c| && |co| > 0 then
        MergeLoop(left[k := right[k]], right, k + 1, idx + 1, c[idx := co[0]], co[1..], advanceOnInsert)
      else None
    else if left[k].Some? then
      MergeLoop(left, right, k + 1, idx + 1, c, co, advanceOnInsert)
    else if right[k].Some? then
      if idx <= |c| && |co| > 0 then
        MergeLoop(left[k := right[k]], right, k + 1, if advanceOnInsert then idx + 1 else idx,
                  c[..idx] + [co[0]] + c[idx..], co[1..], advanceOnInsert)
      else None
    else MergeLoop(left, right, k + 1, idx, c, co, advanceOnInsert)
  }

  /** `merge` as written: after inserting a column the index is not advanced. */
  function MergeAsWritten<T>(left: Rbms, right: Rbms, c: seq<T>, co: seq<T>): (r: Option<Merged<T>>)
    ensures r.Some? ==> r.value.rbms == Overlay(left, right)
  {
    MergeLoopOverlays(left, right, 0, 0, c, co, false);
    MergeLoop(left, right, 0, 0, c, co, false)
  }

  /** Whatever happens to the columns, a merge that does not panic leaves
      the motions before `k` as they are and overlays the rest. */
  lemma {:induction false} MergeLoopOverlays<T>(l: seq<Option<real>>, right: seq<Option<real>>, k: nat, idx: nat,
                                                 c: seq<T>, co: seq<T>, advanceOnInsert: bool)
    requires |l| == |right| && k <= |l|
    ensures var r := MergeLoop(l, right, k, idx, c, co, advanceOnInsert);
      r.Some? ==> (|r.value.rbms| == |l| &&
        forall j :: 0 <= j < |l| ==> r.value.rbms[j] == if k <= j && right[j].Some? then right[j] else l[j])
    decreases |l| - k
  {
    if k < |l| {
      if l[k].Some? && right[k].Some? {
        if idx < |c| && |co| > 0 {
          MergeLoopOverlays(l[k := right[k]], right, k + 1, idx + 1, c[idx := co[0]], co[1..], advanceOnInsert);
        }
      } else if l[k].Some? {
        MergeLoopOverlays(l, right, k + 1, idx + 1, c, co, advanceOnInsert);
      } else if right[k].Some? {
        if idx <= |c| && |co| > 0 {
          MergeLoopOverlays(l[k := right[k]], right, k + 1, if advanceOnInsert then idx + 1 else idx,
                            c[..idx] + [co[0]] + c[idx..], co[1..], advanceOnInsert);
        }
      } else {
        MergeLoopOverlays(l, right, k + 1, idx, c, co, advanceOnInsert);
      }
    }
  }

  /** `merge` with the index advanced past an inserted column. */
  function Merge<T>(left: Rbms, right: Rbms, c: seq<T>, co: seq<T>): (r: Option<Merged<T>>)
    requires |c| == CountSome(left) && |co| >= CountSome(right)
    ensures r == Some(Merged(Overlay(left, right), ExpectedColumns(left, right, c, co)))
  {
    MergeCorrect(left, right, c, co);
    MergeLoop(left, right, 0, 0, c, co, true)
  }

  /** `other` overwrites `self` where it is not `None`. */
  function Overlay(left: seq<Option<real>>, right: seq<Option<real>>): (r: seq<Option<real>>)
    requires |left| == |right|
    ensures |r| == |left|
  {
    seq(|left|, k requires 0 <= k < |left| => if right[k].Some? then right[k] else left[k])
  }

  /** Reference definition of the merged columns: one per motion calibrated
      by either side, in motion order, taken from `co` where the other side
      calibrates the motion and from `c` otherwise. */
  function ExpectedColumns<T>(left: seq<Option<real>>, right: seq<Option<real>>, c: seq<T>, co: seq<T>): (r: seq<T>)
    requires |left| == |right|
    requires |c| >= CountSome(left) && |co| >= CountSome(right)
    ensures |r| == CountSome(Overlay(left, right))
  {
    if |left| == 0 then []
    else
      assert Overlay(left, right)[1..] == Overlay(left[1..], right[1..]);
      if right[0].Some? then
        [co[0]] + ExpectedColumns(left[1..], right[1..], if left[0].Some? then c[1..] else c, co[1..])
      else if left[0].Some? then
        [c[0]] + ExpectedColumns(left[1..], right[1..], c[1..], co)
      else ExpectedColumns(left[1..], right[1..], c, co)
  }

  /** Loop invariant of the corrected merge, after `k` motions: the motion
      array is the overlay so far, the columns are the merged ones so far
      followed by the untouched columns of the rest. */
  lemma {:induction false} MergeLoopCorrect<T>(left: seq<Option<real>>, right: seq<Option<real>>, k: nat,
                                                done: seq<T>, rest: seq<T>, co: seq<T>)
    requires |left| == |right| && k <= |left|
    requires |rest| == CountSome(left[k..]) && |co| >= CountSome(right[k..])
    ensures MergeLoop(Overlay(left, right)[..k] + left[k..], right, k, |done|, done + rest, co, true)
      == Some(Merged(Overlay(left, right), done + ExpectedColumns(left[k..], right[k..], rest, co)))
    decreases |left| - k
  {
    if k == |left| {
      MergeEnd(left, right, done, rest, co);
    } else {
      var done', rest', co' := MergeStep(left, right, k, done, rest, co);
      MergeLoopCorrect(left, right, k + 1, done', rest', co');
    }
  }

  lemma MergeEnd<T>(left: seq<Option<real>>, right: seq<Option<real>>, done: seq<T>, rest: seq<T>, co: seq<T>)
    requires |left| == |right| && |rest| == CountSome(left[|left|..]) && |co| >= CountSome(right[|left|..])
    ensures MergeLoop(Overlay(left, right)[..|left|] + left[|left|..], right, |left|, |done|, done + rest, co, true)
      == Some(Merged(Overlay(left, right), done + ExpectedColumns(left[|left|..], right[|left|..], rest, co)))
  {
    var ov := Overlay(left, right);
    assert ov[..|left|] + left[|left|..] == ov;
    assert left[|left|..] == [] && rest == [];
    assert done + ExpectedColumns(left[|left|..], right[|left|..], rest, co) == done + rest;
  }

  /** One motion of the loop: the state after it has the same shape, one
      motion further. */
  lemma MergeStep<T>(left: seq<Option<real>>, right: seq<Option<real>>, k: nat,
                     done: seq<T>, rest: seq<T>, co: seq<T>) returns (done': seq<T>, rest': seq<T>, co': seq<T>)
    requires |left| == |right| && k < |left|
    requires |rest| == CountSome(left[k..]) && |co| >= CountSome(right[k..])
    ensures |rest'| == CountSome(left[k + 1..]) && |co'| >= CountSome(right[k + 1..])
    ensures MergeLoop(Overlay(left, right)[..k] + left[k..], right, k, |done|, done + rest, co, true)
      == MergeLoop(Overlay(left, right)[..k + 1] + left[k + 1..], right, k + 1, |done'|, done' + rest', co', true)
    ensures done + ExpectedColumns(left[k..], right[k..], rest, co)
      == done' + ExpectedColumns(left[k + 1..], right[k + 1..], rest', co')
  {
    var ov := Overlay(left, right);
    var l := ov[..k] + left[k..];
    SuffixStep(left, k);
    SuffixStep(right, k);
    assert l[k] == left[k];
    var exp := ExpectedColumns(left[k..], right[k..], rest, co);
    var c := done + rest;
    assert CountSome(left[k..]) == (if left[k].Some? then 1 else 0) + CountSome(left[k + 1..]);
    assert CountSome(right[k..]) == (if right[k].Some? then 1 else 0) + CountSome(right[k + 1..]);
    if right[k].Some? {
      var l' := l[k := right[k]];
      assert l' == ov[..k + 1] + left[k + 1..];
      done', co' := done + [co[0]], co[1..];
      rest' := if left[k].Some? then rest[1..] else rest;
      var e := ExpectedColumns(left[k + 1..], right[k + 1..], rest', co');
      assert exp == [co[0]] + e;
      Regroup(done, co[0], e);
      if left[k].Some? {
        ReplaceFirst(done, rest, co[0]);
        assert MergeLoop(l, right, k, |done|, c, co, true)
          == MergeLoop(l', right, k + 1, |done| + 1, c[|done| := co[0]], co[1..], true);
        assert c[|done| := co[0]] == done' + rest';
      } else {
        InsertFirst(done, rest, co[0]);
        assert MergeLoop(l, right, k, |done|, c, co, true)
          == MergeLoop(l', right, k + 1, |done| + 1, c[..|done|] + [co[0]] + c[|done|..], co[1..], true);
        assert c[..|done|] + [co[0]] + c[|done|..] == done' + rest';
      }
    } else {
      assert l == ov[..k + 1] + left[k + 1..];
      co' := co;
      if left[k].Some? {
        done', rest' := done + [rest[0]], rest[1..];
        var e := ExpectedColumns(left[k + 1..], right[k + 1..], rest', co');
        assert exp == [rest[0]] + e;
        Regroup(done, rest[0], e);
        Regroup(done, rest[0], rest[1..]);
        assert [rest[0]] + rest[1..] == rest;
        assert c == done' + rest';
        assert MergeLoop(l, right, k, |done|, c, co, true) == MergeLoop(l, right, k + 1, |done| + 1, c, co, true);
      } else {
        done', rest' := done, rest;
        assert MergeLoop(l, right, k, |done|, c, co, true) == MergeLoop(l, right, k + 1, |done|, c, co, true);
      }
    }
  }

  lemma SuffixStep<T>(s: seq<T>, k: nat)
    requires k < |s|
    ensures s[k..][0] == s[k] && s[k..][1..] == s[k + 1..]
  {
  }

  lemma Regroup<T>(a: seq<T>, x: T, b: seq<T>)
    ensures a + ([x] + b) == (a + [x]) + b
  {
  }

  lemma ReplaceFirst<T>(done: seq<T>, rest: seq<T>, x: T)
    requires |rest| > 0
    ensures (done + rest)[|done| := x] == (done + [x]) + rest[1..]
  {
  }

  lemma InsertFirst<T>(done: seq<T>, rest: seq<T>, x: T)
    ensures (done + rest)[..|done|] + [x] + (done + rest)[|done|..] == (done + [x]) + rest
  {
    assert (done + rest)[..|done|] == done && (done + rest)[|done|..] == rest;
  }

  lemma MergeCorrect<T>(left: seq<Option<real>>, right: seq<Option<real>>, c: seq<T>, co: seq<T>)
    requires |left| == |right|
    requires |c| == CountSome(left) && |co| >= CountSome(right)
    ensures MergeLoop(left, right, 0, 0, c, co, true)
      == Some(Merged(Overlay(left, right), ExpectedColumns(left, right, c, co)))
  {
    assert left[0..] == left && right[0..] == right;
    var ov := Overlay(left, right);
    assert ov[..0] == [];
    assert ov[..0] + left[0..] == left;
    var nothing: seq<T> := [];
    assert nothing + c == c;
    MergeLoopCorrect(left, right, 0, nothing, c, co);
    assert nothing + ExpectedColumns(left, right, c, co) == ExpectedColumns(left, right, c, co);
  }

  /** The code as written loses the column it inserted: with Ty calibrated
      on the left and Tx, Ty on the right, the Tx column is overwritten by
      the Ty column and the old Ty column survives. */
  lemma MergeAsWrittenMisplacesColumns()
    ensures var left: Rbms := [None, Some(1.0), None, None, None, None];
      var right: Rbms := [Some(1.0), Some(1.0), None, None, None, None];
      MergeAsWritten(left, right, [10], [20, 21]) == Some(Merged(Overlay(left, right), [21, 10]))
      && Merge(left, right, [10], [20, 21]) == Some(Merged(Overlay(left, right), [20, 21]))
  {
    var left: Rbms := [None, Some(1.0), None, None, None, None];
    var right: Rbms := [Some(1.0), Some(1.0), None, None, None, None];
    AsWrittenExample();
    CorrectedExample();
  }

  lemma AsWrittenExample()
    ensures var left: Rbms := [None, Some(1.0), None, None, None, None];
      var right: Rbms := [Some(1.0), Some(1.0), None, None, None, None];
      MergeAsWritten(left, right, [10], [20, 21]) == Some(Merged(Overlay(left, right), [21, 10]))
  {
    var left: Rbms := [None, Some(1.0), None, None, None, None];
    var right: Rbms := [Some(1.0), Some(1.0), None, None, None, None];
    var ov := Overlay(left, right);
    assert ov == [Some(1.0), Some(1.0), None, None, None, None];
    var l1 := left[0 := right[0]];
    assert l1 == [Some(1.0), Some(1.0), None, None, None, None];
    assert [10][..0] + [20] + [10][0..] == [20, 10];
    assert MergeLoop(left, right, 0, 0, [10], [20, 21], false)
      == MergeLoop(l1, right, 1, 0, [20, 10], [21], false);
    assert [20, 10][0 := 21] == [21, 10];
    assert l1[1 := right[1]] == l1;
    assert MergeLoop(l1, right, 1, 0, [20, 10], [21], false)
      == MergeLoop(l1, right, 2, 1, [21, 10], [], false);
    assert l1 == ov;
  }

  lemma CorrectedExample()
    ensures var left: Rbms := [None, Some(1.0), None, None, None, None];
      var right: Rbms := [Some(1.0), Some(1.0), None, None, None, None];
      CountSome(left) == 1 && Merge(left, right, [10], [20, 21]) == Some(Merged(Overlay(left, right), [20, 21]))
  {
    var left: Rbms := [None, Some(1.0), None, None, None, None];
    var right: Rbms := [Some(1.0), Some(1.0), None, None, None, None];
    assert CountSome(left) == 1 by {
      assert left[1..][1..] == [None, None, None, None];
    }
    var none: seq<Option<real>> := [None, None, None, None];
    assert left[1..][1..] == none && right[1..][1..] == none;
    var nothing: seq<int> := [];
    assert ExpectedColumns(none, none, nothing, nothing) == [] by {
      NoColumns(none, none, nothing, nothing);
    }
    assert CountSome(right) == 2;
    assert ExpectedColumns(left[1..], right[1..], [10], [21]) == [21];
    assert ExpectedColumns(left, right, [10], [20, 21]) == [20, 21];
  }

  /** Motions calibrated on neither side contribute no column. */
  lemma {:induction false} NoColumns<T>(left: seq<Option<real>>, right: seq<Option<real>>, c: seq<T>, co: seq<T>)
    requires |left| == |right| && forall k :: 0 <= k < |left| ==> left[k].None? && right[k].None?
    ensures CountSome(left) == 0 && CountSome(right) == 0
    ensures ExpectedColumns(left, right, c, co) == []
  {
    if |left| > 0 {
      NoColumns(left[1..], right[1..], c, co);
    }
  }
}
