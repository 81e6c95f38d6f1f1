/**
 The calibration of M2's seven adaptive shells: for every segment, the
 matrix of its modes on the actuators (loaded from a MAT-file variable and
 cut to size), the stiffness, and on demand the transposed modes.
 */
module M2Calibration {
  import opened Common

  /** Where a matrix comes from. */
  datatype DataSource =
    | MatVar(fileName: string, varName: string)
    | MatFile(fileName: string, varNames: seq<string>)
    | Fem
    | Bin(path: string)

  /** `From<String>`, `From<(String, String)>` and
      `From<(String, Vec<String>)>`. */
  function FromPath(path: string): (d: DataSource)
    ensures d.Bin? && d.path == path
  {
    Bin(path)
  }

  function FromVar(fileName: string, varName: string): (d: DataSource)
    ensures d.MatVar? && d.fileName == fileName && d.varName == varName
  {
    MatVar(fileName, varName)
  }

  function FromVars(fileName: string, varNames: seq<string>): (d: DataSource)
    ensures d.MatFile? && d.fileName == fileName && d.varNames == varNames
  {
    MatFile(fileName, varNames)
  }

  datatype M2CtrlError =
    | MatrixSizeMismatch(requested: (nat, nat), found: (nat, nat))
    | MatFileError(message: string)
    | StiffnessError
    | DataSourceMatFile

  /** A dense matrix as its rows. */
  datatype Matrix = Matrix(nrows: nat, ncols: nat, rows: seq<seq<real>>)

  predicate WellFormed(m: Matrix) {
    |m.rows| == m.nrows && forall i :: 0 <= i < m.nrows ==> |m.rows[i]| == m.ncols
  }

  /** The leading `r × c` block of `m`: the reference for what a load with
      a requested size returns. */
  function Block(m: Matrix, r: nat, c: nat): (b: Matrix)
    requires WellFormed(m) && r <= m.nrows && c <= m.ncols
    ensures WellFormed(b) && b.nrows == r && b.ncols == c
    ensures forall i, j :: 0 <= i < r && 0 <= j < c ==> b.rows[i][j] == m.rows[i][j]
  {
    Matrix(r, c, seq(r, i requires 0 <= i < r => m.rows[i][..c]))
  }

  /** `data.rows(0, r)` */
  function Rows(m: Matrix, r: nat): (b: Matrix)
    requires WellFormed(m) && r <= m.nrows
    ensures WellFormed(b) && b.nrows == r && b.ncols == m.ncols
  {
    Matrix(r, m.ncols, m.rows[..r])
  }

  /** `data.columns(0, c)` */
  function Columns(m: Matrix, c: nat): (b: Matrix)
    requires WellFormed(m) && c <= m.ncols
    ensures WellFormed(b) && b.nrows == m.nrows && b.ncols == c
  {
    Matrix(m.nrows, c, seq(m.nrows, i requires 0 <= i < m.nrows => m.rows[i][..c]))
  }

  /** `DataSource::load` of a MAT-file variable, `stored` being what the
      file yields for it (reading the file is I/O). A missing size is the
      stored one; asking for more rows or columns than stored is an error;
      asking for fewer cuts the leading block. Any other source is
      unimplemented. */
  function Load(src: DataSource, stored: Result<Matrix, M2CtrlError>, nrows: Option<nat>, ncols: Option<nat>): (r: Result<Matrix, M2CtrlError>)
    requires src.MatVar?
    requires stored.Ok? ==> WellFormed(stored.value)
    ensures stored.Err? ==> r == Err(stored.error)
    ensures stored.Ok? ==>
      var data := stored.value;
      var n, m := nrows.UnwrapOr(data.nrows), ncols.UnwrapOr(data.ncols);
      && (r.Ok? <==> n <= data.nrows && m <= data.ncols)
      && (r.Err? ==> r.error == MatrixSizeMismatch((n, m), (data.nrows, data.ncols)))
      && (r.Ok? ==> WellFormed(r.value) && r.value.nrows == n && r.value.ncols == m)
  {
    match stored
    case Err(e) => Err(e)
    case Ok(data) =>
      var nrows := nrows.UnwrapOr(data.nrows);
      var ncols := ncols.UnwrapOr(data.ncols);
      if data.nrows < nrows || data.ncols < ncols then
        Err(MatrixSizeMismatch((nrows, ncols), (data.nrows, data.ncols)))
      else if nrows < data.nrows && ncols < data.ncols then
        Ok(Columns(Rows(data, nrows), ncols))
      else if nrows < data.nrows then
        Ok(Rows(data, nrows))
      else if ncols < data.ncols then
        Ok(Columns(data, ncols))
      else
        Ok(data)
  }

  lemma BlockWhole(m: Matrix)
    requires WellFormed(m)
    ensures Block(m, m.nrows, m.ncols) == m
  {
    assert forall i :: 0 <= i < m.nrows ==> m.rows[i][..m.ncols] == m.rows[i];
  }

  /** Whichever branch it takes, a successful load is the leading block of
      the requested size. */
  lemma LoadIsBlock(src: DataSource, data: Matrix, nrows: Option<nat>, ncols: Option<nat>)
    requires src.MatVar? && WellFormed(data)
    requires nrows.UnwrapOr(data.nrows) <= data.nrows && ncols.UnwrapOr(data.ncols) <= data.ncols
    ensures Load(src, Ok(data), nrows, ncols) == Ok(Block(data, nrows.UnwrapOr(data.nrows), ncols.UnwrapOr(data.ncols)))
  {
    var n, m := nrows.UnwrapOr(data.nrows), ncols.UnwrapOr(data.ncols);
    if n == data.nrows && m == data.ncols {
      BlockWhole(data);
    } else if n < data.nrows && m < data.ncols {
      assert Columns(Rows(data, n), m).rows == Block(data, n, m).rows;
    } else if n < data.nrows {
      var b := Block(data, n, m);
      forall i | 0 <= i < n ensures b.rows[i] == data.rows[..n][i] {
        assert data.rows[i][..m] == data.rows[i];
      }
      assert Rows(data, n).rows == b.rows;
      assert Rows(data, n) == b;
      assert Load(src, Ok(data), nrows, ncols) == Ok(Rows(data, n));
    } else {
      assert Columns(data, m).rows == Block(data, n, m).rows;
    }
  }

  /** Loading without a size gives the stored matrix, and loading again at
      the size just loaded gives the same block. */
  lemma LoadIdempotent(src: DataSource, data: Matrix, nrows: Option<nat>, ncols: Option<nat>)
    requires src.MatVar? && WellFormed(data)
    requires Load(src, Ok(data), nrows, ncols).Ok?
    ensures Load(src, Ok(data), None, None) == Ok(data)
    ensures var b := Load(src, Ok(data), nrows, ncols).value;
      Load(src, Ok(b), nrows, ncols) == Ok(b)
  {
    var b := Load(src, Ok(data), nrows, ncols).value;
    assert b.nrows == nrows.UnwrapOr(data.nrows) && b.ncols == ncols.UnwrapOr(data.ncols);
    assert nrows.UnwrapOr(b.nrows) == b.nrows && ncols.UnwrapOr(b.ncols) == b.ncols;
  }

  /** The stiffness of a shell is given zonally (per actuator) or modally. */
  datatype StiffnessKind = Zonal | Modal

  /** `From<&str>`: only the two names are accepted; any other string is
      unimplemented. */
  function ParseStiffnessKind(value: string): (k: StiffnessKind)
    requires value == "Zonal" || value == "Modal"
  {
    if value == "Zonal" then Zonal else Modal
  }

  function StiffnessKindName(k: StiffnessKind): string {
    match k
    case Zonal => "Zonal"
    case Modal => "Modal"
  }

  /** Parsing and naming are inverse to each other. */
  lemma StiffnessKindRoundTrip(k: StiffnessKind, value: string)
    ensures ParseStiffnessKind(StiffnessKindName(k)) == k
    ensures value == "Zonal" || value == "Modal" ==> StiffnessKindName(ParseStiffnessKind(value)) == value
  {
  }

  /** The transpose, on rows. */
  function Transpose(m: Matrix): (t: Matrix)
    requires WellFormed(m)
    ensures WellFormed(t) && t.nrows == m.ncols && t.ncols == m.nrows
    ensures forall i, j :: 0 <= i < m.ncols && 0 <= j < m.nrows ==> t.rows[i][j] == m.rows[j][i]
  {
    Matrix(m.ncols, m.nrows,
      seq(m.ncols, i requires 0 <= i < m.ncols =>
        seq(m.nrows, j requires 0 <= j < m.nrows => m.rows[j][i])))
  }

  lemma TransposeTwice(m: Matrix)
    requires WellFormed(m)
    ensures Transpose(Transpose(m)) == m
  {
    var t := Transpose(Transpose(m));
    forall i | 0 <= i < m.nrows ensures t.rows[i] == m.rows[i] {
    }
  }

  /** `SegmentCalibration`: segment id, mode and actuator counts, stiffness,
      modes (actuators × modes) and, once asked for, their transpose. */
  datatype SegmentCalibration = SegmentCalibration(
    sid: nat,
    nMode: nat,
    nActuator: nat,
    stiffness: seq<real>,
    modes: Matrix,
    modesT: Option<Matrix>)

  /** `DMatrix::as_slice`: the entries column after column. */
  function ColumnMajor(m: Matrix): (v: seq<real>)
    requires WellFormed(m)
    ensures |v| == m.nrows * m.ncols
  {
    FlattenLength(Transpose(m).rows, m.nrows);
    Flatten(Transpose(m).rows)
  }

  /** `SegmentCalibration::new`. The modes are loaded at `nActuator × nMode`
      from `files` (the variables of the MAT-files, by file and variable
      name). The FEM stiffness — the inverse of the shell's static gain,
      projected on the modes for the modal kind — is given as
      `femStiffness`; any other stiffness source is loaded whole. The FEM
      must be there when the stiffness comes from it. */
  function NewSegment(
    sid: nat, nMode: nat, nActuator: nat,
    modesSrc: DataSource, stiffnessSrc: DataSource,
    files: (string, string) -> Result<Matrix, M2CtrlError>,
    femStiffness: Option<Result<seq<real>, M2CtrlError>>): (r: Result<SegmentCalibration, M2CtrlError>)
    requires modesSrc.MatVar? && (stiffnessSrc.Fem? ==> femStiffness.Some?) && (!stiffnessSrc.Fem? ==> stiffnessSrc.MatVar?)
    requires forall f, v :: files(f, v).Ok? ==> WellFormed(files(f, v).value)
    ensures r.Ok? ==>
      && r.value.sid == sid && r.value.modesT.None?
      && Load(modesSrc, files(modesSrc.fileName, modesSrc.varName), Some(nActuator), Some(nMode)) == Ok(r.value.modes)
    ensures Load(modesSrc, files(modesSrc.fileName, modesSrc.varName), Some(nActuator), Some(nMode)).Err? ==>
      r == Err(Load(modesSrc, files(modesSrc.fileName, modesSrc.varName), Some(nActuator), Some(nMode)).error)
    ensures r.Ok? ==> r.value.nMode == nMode && r.value.nActuator == nActuator
    ensures r.Ok? && stiffnessSrc.Fem? ==> femStiffness.value == Ok(r.value.stiffness)
    ensures r.Ok? && !stiffnessSrc.Fem? ==>
      var stored := files(stiffnessSrc.fileName, stiffnessSrc.varName);
      stored.Ok? && r.value.stiffness == ColumnMajor(stored.value)
    ensures Load(modesSrc, files(modesSrc.fileName, modesSrc.varName), Some(nActuator), Some(nMode)).Ok? ==>
      && (stiffnessSrc.Fem? && femStiffness.value.Err? ==> r == Err(femStiffness.value.error))
      && (!stiffnessSrc.Fem? && files(stiffnessSrc.fileName, stiffnessSrc.varName).Err? ==>
            r == Err(files(stiffnessSrc.fileName, stiffnessSrc.varName).error))
  {
    var modes := Load(modesSrc, files(modesSrc.fileName, modesSrc.varName), Some(nActuator), Some(nMode));
    if modes.Err? then Err(modes.error)
    else
      var stiffness :=
        if stiffnessSrc.Fem? then femStiffness.value
        else
          var stored := files(stiffnessSrc.fileName, stiffnessSrc.varName);
          var s := Load(stiffnessSrc, stored, None, None);
          assert stored.Ok? ==> s == Ok(stored.value) by {
            if stored.Ok? {
              LoadIdempotent(stiffnessSrc, stored.value, None, None);
            }
          }
          if s.Err? then Err(s.error) else Ok(ColumnMajor(s.value));
      if stiffness.Err? then Err(stiffness.error)
      else Ok(SegmentCalibration(sid, nMode, nActuator, stiffness.value, modes.value, None))
  }

  /** The segments' calibrations, segment `k + 1` at index `k`. */
  type Calibration = seq<SegmentCalibration>

  /** Every transposed mode matrix present is the transpose of the modes
      (`new` leaves none, `transpose_modes` adds the transpose). */
  predicate Consistent(c: Calibration) {
    forall k :: 0 <= k < |c| ==>
      && WellFormed(c[k].modes)
      && (c[k].modesT.Some? ==> c[k].modesT.value == Transpose(c[k].modes))
  }

  /** `transpose_modes`: every segment gets its transposed modes, unless it
      already has some (`get_or_insert`). */
  function TransposeModes(c: Calibration): (r: Calibration)
    requires forall k :: 0 <= k < |c| ==> WellFormed(c[k].modes)
    ensures |r| == |c|
    ensures forall k :: 0 <= k < |c| ==> r[k] == c[k].(modesT := r[k].modesT) && r[k].modesT.Some?
    ensures forall k :: 0 <= k < |c| ==> c[k].modesT.Some? ==> r[k] == c[k]
  {
    seq(|c|, k requires 0 <= k < |c| =>
      c[k].(modesT := Some(c[k].modesT.UnwrapOr(Transpose(c[k].modes)))))
  }

  /** Transposing twice is transposing once, and consistency is kept. */
  lemma TransposeModesIdempotent(c: Calibration)
    requires forall k :: 0 <= k < |c| ==> WellFormed(c[k].modes)
    ensures TransposeModes(TransposeModes(c)) == TransposeModes(c)
    ensures Consistent(c) ==> Consistent(TransposeModes(c))
  {
  }

  /** The segments asked for: all seven by default. */
  function Sids(sids: Option<seq<nat>>): (r: seq<nat>)
    ensures sids.None? ==> r == [1, 2, 3, 4, 5, 6, 7]
    ensures sids.Some? ==> r == sids.value
  {
    sids.UnwrapOr([1, 2, 3, 4, 5, 6, 7])
  }

  /** Every requested segment exists (a segment id of zero or past the
      last segment panics). */
  predicate ValidSids(c: Calibration, sids: seq<nat>) {
    forall i :: 0 <= i < |sids| ==> 1 <= sids[i] <= |c|
  }

  /** `Calibration::modes` */
  function Modes(c: Calibration, sids: Option<seq<nat>>): (r: seq<Matrix>)
    requires ValidSids(c, Sids(sids))
    ensures |r| == |Sids(sids)|
    ensures forall i :: 0 <= i < |r| ==> r[i] == c[Sids(sids)[i] - 1].modes
  {
    var s := Sids(sids);
    seq(|s|, i requires 0 <= i < |s| => c[s[i] - 1].modes)
  }

  /** `Calibration::modes_t`: the transposed modes of the requested
      segments, or none at all if one of them has none. */
  function ModesT(c: Calibration, sids: Option<seq<nat>>): (r: Option<seq<Matrix>>)
    requires ValidSids(c, Sids(sids))
    ensures r.Some? <==> forall i :: 0 <= i < |Sids(sids)| ==> c[Sids(sids)[i] - 1].modesT.Some?
  {
    var s := Sids(sids);
    var xs := seq(|s|, i requires 0 <= i < |s| => c[s[i] - 1].modesT);
    var r := CollectAll(xs);
    assert r.Some? <==> forall i :: 0 <= i < |s| ==> c[s[i] - 1].modesT.Some? by {
      assert forall i :: 0 <= i < |s| ==> xs[i] == c[s[i] - 1].modesT;
    }
    r
  }

  /** After `transpose_modes`, the transposed modes of a consistent
      calibration are always there and are the transposes of the modes. */
  lemma ModesTAfterTranspose(c: Calibration, sids: Option<seq<nat>>)
    requires Consistent(c) && ValidSids(c, Sids(sids))
    ensures ModesT(TransposeModes(c), sids).Some?
    ensures var t := ModesT(TransposeModes(c), sids).value;
      |t| == |Sids(sids)| && forall i :: 0 <= i < |t| ==> t[i] == Transpose(Modes(c, sids)[i])
  {
  }

  /** `Calibration::stiffness` */
  function Stiffness(c: Calibration, sid: nat): (r: seq<real>)
    requires 1 <= sid <= |c|
    ensures r == c[sid - 1].stiffness
  {
    c[sid - 1].stiffness
  }

  /** `CalibrationBuilder::build` from segment `sid` on: the modes of
      segment `sid` are the `sid`-th variable of the MAT-file; the first
      failing segment's error is returned. */
  function BuildFrom(
    sid: nat, nMode: nat, nActuator: nat, fileName: string, varNames: seq<string>,
    files: (string, string) -> Result<Matrix, M2CtrlError>,
    femStiffness: nat -> Result<seq<real>, M2CtrlError>): (r: Result<Calibration, M2CtrlError>)
    requires 1 <= sid <= 8 && |varNames| >= 7
    requires forall f, v :: files(f, v).Ok? ==> WellFormed(files(f, v).value)
    ensures r.Ok? ==> |r.value| == 8 - sid
    ensures r.Ok? ==> forall k :: 0 <= k < |r.value| ==>
      && r.value[k].sid == sid + k && r.value[k].modesT.None?
      && Load(MatVar(fileName, varNames[sid + k - 1]), files(fileName, varNames[sid + k - 1]), Some(nActuator), Some(nMode))
         == Ok(r.value[k].modes)
    decreases 8 - sid
  {
    if sid == 8 then Ok([])
    else
      var seg := NewSegment(sid, nMode, nActuator, MatVar(fileName, varNames[sid - 1]), Fem, files, Some(femStiffness(sid)));
      if seg.Err? then Err(seg.error)
      else
        var rest := BuildFrom(sid + 1, nMode, nActuator, fileName, varNames, files, femStiffness);
        if rest.Err? then Err(rest.error)
        else Ok([seg.value] + rest.value)
  }

  /** `CalibrationBuilder::build`: the modes must come from a MAT-file with
      (at least) one variable per segment. */
  function Build(
    nMode: nat, nActuator: nat, modesSrc: DataSource,
    files: (string, string) -> Result<Matrix, M2CtrlError>,
    femStiffness: nat -> Result<seq<real>, M2CtrlError>): (r: Result<Calibration, M2CtrlError>)
    requires modesSrc.MatFile? ==> |modesSrc.varNames| >= 7
    requires forall f, v :: files(f, v).Ok? ==> WellFormed(files(f, v).value)
    ensures !modesSrc.MatFile? ==> r == Err(DataSourceMatFile)
    ensures r.Ok? ==> |r.value| == 7 && Consistent(r.value)
    ensures r.Ok? ==> forall k :: 0 <= k < 7 ==> r.value[k].sid == k + 1 && r.value[k].modes.nrows == nActuator && r.value[k].modes.ncols == nMode
    ensures r.Ok? ==> forall k :: 0 <= k < 7 ==> r.value[k].modesT.None?
  {
    if !modesSrc.MatFile? then Err(DataSourceMatFile)
    else BuildFrom(1, nMode, nActuator, modesSrc.fileName, modesSrc.varNames, files, femStiffness)
  }

  /** A built calibration answers for every segment: the modes and, after
      `transpose_modes`, their transposes are there for all seven. */
  lemma BuiltCalibrationComplete(
    nMode: nat, nActuator: nat, modesSrc: DataSource,
    files: (string, string) -> Result<Matrix, M2CtrlError>,
    femStiffness: nat -> Result<seq<real>, M2CtrlError>)
    requires modesSrc.MatFile? ==> |modesSrc.varNames| >= 7
    requires forall f, v :: files(f, v).Ok? ==> WellFormed(files(f, v).value)
    requires Build(nMode, nActuator, modesSrc, files, femStiffness).Ok?
    ensures var c := Build(nMode, nActuator, modesSrc, files, femStiffness).value;
      && ValidSids(c, Sids(None))
      && ModesT(c, None).None?
      && ModesT(TransposeModes(c), None).Some?
  {
    var c := Build(nMode, nActuator, modesSrc, files, femStiffness).value;
    SevenUntransposed(c);
  }

  /** Seven consistent segments without transposed modes answer `modes_t`
      only once transposed. */
  lemma SevenUntransposed(c: Calibration)
    requires |c| == 7 && Consistent(c)
    requires forall k :: 0 <= k < 7 ==> c[k].modesT.None?
    ensures ValidSids(c, Sids(None))
    ensures ModesT(c, None).None? && ModesT(TransposeModes(c), None).Some?
  {
    assert c[0].modesT.None?;
    assert Sids(None)[0] == 1;
  }
}
