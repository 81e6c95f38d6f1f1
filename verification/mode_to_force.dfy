/**
 The M1 segment mode-to-force converter: it reads the modal command of one
 segment out of the command of all the segments, and turns it into
 actuator forces through the segment's mode-to-force matrix.
 */
module ModeToForce {
  import opened Common

  /** `Mode2Force<S>` for segment `segment` (`S`, from 1): the matrix is
      `nActuator` by `nMode`, stored column after column as it is loaded. */
  datatype Converter = Converter(
    segment: nat,
    range: Option<(nat, nat)>,
    nActuator: nat,
    nMode: nat,
    matrix: seq<real>,
    mode: seq<real>,
    force: Option<seq<real>>)

  datatype Error = MatrixNotLoaded

  predicate Valid(c: Converter) {
    |c.matrix| == c.nActuator * c.nMode && |c.mode| == c.nMode
  }

  /** `new`: the coefficients loaded from the calibration file, or the
      failure to load them (`None`). A coefficient count that is not
      `nActuator * nMode` panics. */
  function New(segment: nat, nActuator: nat, nMode: nat, coeffs: Option<seq<real>>): (r: Result<Converter, Error>)
    requires coeffs.Some? ==> |coeffs.value| == nActuator * nMode
    ensures r.Err? <==> coeffs.None?
    ensures r.Ok? ==> Valid(r.value) && r.value.range.None? && r.value.force.None?
    ensures r.Ok? ==> r.value.mode == Repeat(0.0, nMode) && r.value.matrix == coeffs.value
  {
    if coeffs.None? then Err(MatrixNotLoaded)
    else Ok(Converter(segment, None, nActuator, nMode, coeffs.value, Repeat(0.0, nMode), None))
  }

  /** `n_input_mode`: the segment's modes are the `n` after those of the
      segments before it. */
  function NInputMode(c: Converter, n: nat): (r: Converter)
    requires c.segment >= 1
    ensures r.range.Some? && r.range.value.1 - r.range.value.0 == n
    ensures r.range.value.0 == n * (c.segment - 1)
    ensures r == c.(range := r.range)
  {
    c.(range := Some((n * (c.segment - 1), n * c.segment)))
  }

  /** `read`: the modes are overwritten from the segment's slice of the
      command (the whole command without a range), as far as both go. A
      range past the end of the command panics. */
  function Read(c: Converter, data: seq<real>): (r: Converter)
    requires c.range.Some? ==> c.range.value.0 <= c.range.value.1 <= |data|
    ensures |r.mode| == |c.mode|
    ensures var src := if c.range.Some? then data[c.range.value.0..c.range.value.1] else data;
      forall k :: 0 <= k < |c.mode| ==> r.mode[k] == (if k < |src| then src[k] else c.mode[k])
    ensures r == c.(mode := r.mode)
  {
    var src := if c.range.Some? then data[c.range.value.0..c.range.value.1] else data;
    c.(mode := seq(|c.mode|, k requires 0 <= k < |c.mode| => if k < |src| then src[k] else c.mode[k]))
  }

  /** Row `i` of the matrix against the modes. */
  function RowDot(c: Converter, i: nat, j: nat): real
    requires Valid(c) && i < c.nActuator && j <= c.nMode
    decreases j
  {
    if j == 0 then 0.0
    else
      ColumnIndex(c, i, j - 1);
      RowDot(c, i, j - 1) + c.matrix[i + (j - 1) * c.nActuator] * c.mode[j - 1]
  }

  lemma ColumnIndex(c: Converter, i: nat, j: nat)
    requires Valid(c) && i < c.nActuator && j < c.nMode
    ensures i + j * c.nActuator < |c.matrix|
  {
    assert i + j * c.nActuator < (j + 1) * c.nActuator;
    assert (j + 1) * c.nActuator <= c.nMode * c.nActuator by {
      MulMono(j + 1, c.nMode, c.nActuator);
    }
  }

  lemma MulMono(a: nat, b: nat, k: nat)
    requires a <= b
    ensures a * k <= b * k
  {
  }

  /** `update`: the forces of the current modes. */
  function Update(c: Converter): (r: Converter)
    requires Valid(c)
    ensures Valid(r) && r.force.Some? && |r.force.value| == c.nActuator
    ensures forall i :: 0 <= i < c.nActuator ==> r.force.value[i] == RowDot(c, i, c.nMode)
    ensures r == c.(force := r.force)
  {
    c.(force := Some(seq(c.nActuator, i requires 0 <= i < c.nActuator => RowDot(c, i, c.nMode))))
  }

  /** `write`: nothing until the first update, then the last forces. */
  function Write(c: Converter): (r: Option<seq<real>>)
    ensures r.Some? <==> c.force.Some?
    ensures r.Some? ==> r.value == c.force.value
  {
    c.force
  }

  /** A new converter writes nothing; after an update it writes one force
      per actuator, and zero modes give zero forces. */
  lemma WriteAfterUpdate(segment: nat, nActuator: nat, nMode: nat, coeffs: seq<real>)
    requires |coeffs| == nActuator * nMode
    ensures var c := New(segment, nActuator, nMode, Some(coeffs)).value;
      Write(c).None? && Write(Update(c)) == Some(Repeat(0.0, nActuator))
  {
    var c := New(segment, nActuator, nMode, Some(coeffs)).value;
    forall i | 0 <= i < nActuator ensures RowDot(c, i, nMode) == 0.0 {
      RowDotZero(c, i, nMode);
    }
    assert Update(c).force.value == Repeat(0.0, nActuator);
  }

  lemma {:induction false} RowDotZero(c: Converter, i: nat, j: nat)
    requires Valid(c) && i < c.nActuator && j <= c.nMode
    requires c.mode == Repeat(0.0, c.nMode)
    ensures RowDot(c, i, j) == 0.0
    decreases j
  {
    if j > 0 {
      RowDotZero(c, i, j - 1);
    }
  }

  /** With `n` input modes per segment and a command covering segment `S`,
      the converter's `n` modes become exactly the segment's block of the
      command. */
  lemma ReadsOwnSegment(c: Converter, n: nat, data: seq<real>)
    requires c.segment >= 1 && |c.mode| == n && n * c.segment <= |data|
    ensures Read(NInputMode(c, n), data).mode == data[n * (c.segment - 1)..n * c.segment]
  {
    assert n * (c.segment - 1) + n == n * c.segment;
  }

  /** The segments' blocks: with every segment reading `n` modes out of the
      command of all the segments one after the other, segment `S` reads the
      `S`-th block. */
  lemma ReadsBlock(c: Converter, blocks: seq<seq<real>>, n: nat)
    requires 1 <= c.segment <= |blocks| && |c.mode| == n
    requires forall k :: 0 <= k < |blocks| ==> |blocks[k]| == n
    ensures n * c.segment <= |Flatten(blocks)|
    ensures Read(NInputMode(c, n), Flatten(blocks)).mode == blocks[c.segment - 1]
  {
    FlattenBlock(blocks, n, c.segment - 1);
    ReadsOwnSegment(c, n, Flatten(blocks));
  }

  lemma {:induction false} FlattenBlock(blocks: seq<seq<real>>, n: nat, k: nat)
    requires k < |blocks| && forall j :: 0 <= j < |blocks| ==> |blocks[j]| == n
    ensures n * (k + 1) <= |Flatten(blocks)|
    ensures Flatten(blocks)[n * k..n * (k + 1)] == blocks[k]
    decreases k
  {
    FlattenLength(blocks, n);
    var f := Flatten(blocks);
    assert f == blocks[0] + Flatten(blocks[1..]);
    FlattenLength(blocks[1..], n);
    if k == 0 {
      assert f[..n] == blocks[0];
    } else {
      FlattenBlock(blocks[1..], n, k - 1);
      assert n * k == n + n * (k - 1) && n * (k + 1) == n + n * k;
      assert f[n * k..n * (k + 1)] == Flatten(blocks[1..])[n * (k - 1)..n * k];
    }
  }

  /** Reading is idempotent, and without a range a command as long as the
      modes replaces them all. */
  lemma ReadTwice(c: Converter, data: seq<real>)
    requires c.range.Some? ==> c.range.value.0 <= c.range.value.1 <= |data|
    ensures Read(Read(c, data), data) == Read(c, data)
    ensures c.range.None? && |data| == |c.mode| ==> Read(c, data).mode == data
  {
  }
}
