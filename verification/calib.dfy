/**
 The calibration matrix `Calib` of one segment: a column-major matrix `c`
 whose rows are the valid (masked) entries of a sensor frame and whose
 columns are the calibrated degrees of freedom, together with the mask of
 valid entries and the calibration mode it was built with.
 */
module CalibMatrix {
  import opened Common
  import opened CalibrationModes

  /** `Calib`; the run time is left out. `nCols` is the optional explicit
      column count set by the builder. */
  datatype Calib = Calib(
    sid: nat,
    n_mode: nat,
    c: seq<real>,
    mask: seq<bool>,
    mode: CalibrationMode,
    nCols: Option<nat>)

  /** `area()`: the number of valid entries. */
  function Area(k: Calib): (r: nat)
    ensures r <= |k.mask|
  {
    CountTrue(k.mask)
  }

  /** The first `n` items of `data.iter().cycle()` (nothing when `data` is
      empty). */
  function Cycle<T>(data: seq<T>, n: nat): (r: seq<T>)
    ensures |data| > 0 ==> |r| == n
    ensures |data| == 0 ==> r == []
    ensures forall i :: 0 <= i < |r| ==> r[i] == data[i % |data|]
  {
    if |data| == 0 then [] else seq(n, i requires 0 <= i < n => data[i % |data|])
  }

  /** `mask(data)`: the data are cycled along the mask and the entries under
      a set mask entry are kept. */
  function MaskData<T>(k: Calib, data: seq<T>): (r: seq<T>)
    ensures |data| > 0 ==> |r| == Area(k)
    ensures |data| == 0 ==> r == []
  {
    var cycled := Cycle(data, |k.mask|);
    if |data| == 0 then [] else SelectLength(cycled, k.mask); Select(cycled, k.mask)
  }

  /** `n_cols()` panics (`unimplemented!`) for a global tip-tilt calibration
      without an explicit column count, and underflows for an inverted
      `Modes` range. */
  predicate HasNCols(k: Calib) {
    k.nCols.Some? || k.mode.RBM? || (k.mode.Modes? && k.mode.start_idx <= ModesEnd(k.mode))
  }

  /** `n_cols()`: the explicit count if any, otherwise the number of
      calibrated motions or modes of the calibration mode. */
  function NCols(k: Calib): (r: nat)
    requires HasNCols(k)
    ensures k.nCols.Some? ==> r == k.nCols.value
    ensures k.nCols.None? && k.mode.RBM? ==> r == CountSome(k.mode.rbms) && r <= 6
    ensures k.nCols.None? && k.mode.Modes? ==> r + k.mode.start_idx == ModesEnd(k.mode)
  {
    if k.nCols.Some? then k.nCols.value else CalibrationNMode(k.mode)
  }

  /** `n_rows()`: the integer quotient of the entry count by `n_cols()`
      (a division by zero panics). */
  function NRows(k: Calib): (r: nat)
    requires HasNCols(k) && NCols(k) > 0
  {
    |k.c| / NCols(k)
  }

  /** `mat_ref()` views `c` as an `n_rows × n_cols` column-major matrix and
      panics unless `c` has exactly that many entries. */
  predicate Shaped(k: Calib) {
    HasNCols(k) && NCols(k) > 0 && |k.c| == NRows(k) * NCols(k)
  }

  /** Conversion to `Vec<i8>`: the first half of the mask as 0/1. */
  function ToI8(k: Calib): (r: seq<int>)
    ensures |r| == |k.mask| / 2
    ensures forall i :: 0 <= i < |r| ==> (r[i] == 1 <==> k.mask[i]) && (r[i] == 0 <==> !k.mask[i])
  {
    seq(|k.mask| / 2, i requires 0 <= i < |k.mask| / 2 => if k.mask[i] then 1 else 0)
  }

  /** 0/1 encoding of a mask. */
  function Bits(m: seq<bool>): seq<int> {
    if |m| == 0 then [] else [if m[0] then 1 else 0] + Bits(m[1..])
  }

  lemma {:induction false} BitsSum(m: seq<bool>)
    ensures Sum(Bits(m)) == CountTrue(m)
  {
    if |m| > 0 {
      assert Bits(m)[1..] == Bits(m[1..]);
      BitsSum(m[1..]);
    }
  }

  lemma {:induction false} BitsIndex(m: seq<bool>)
    ensures |Bits(m)| == |m|
    ensures forall i :: 0 <= i < |m| ==> Bits(m)[i] == (if m[i] then 1 else 0)
  {
    if |m| > 0 {
      BitsIndex(m[1..]);
    }
  }

  /** The `Vec<i8>` view sums to the area of the first half of the mask. */
  lemma ToI8CountsArea(k: Calib)
    ensures Sum(ToI8(k)) == CountTrue(k.mask[..|k.mask| / 2])
  {
    var h := k.mask[..|k.mask| / 2];
    BitsIndex(h);
    assert ToI8(k) == Bits(h);
    BitsSum(h);
  }

  // ---------------------------------------------------------------------
  // Masks
  // ---------------------------------------------------------------------

  lemma {:induction false} SelectPrefix<T>(v: seq<T>, mask: seq<bool>)
    requires |v| >= |mask|
    ensures Select(v, mask) == Select(v[..|mask|], mask)
  {
    if |mask| > 0 {
      assert v[..|mask|][1..] == v[1..][..|mask| - 1];
      SelectPrefix(v[1..], mask[1..]);
    }
  }

  lemma CycleNoWrap<T>(data: seq<T>, n: nat)
    requires n <= |data|
    ensures Cycle(data, n) == data[..n]
  {
    var r := Cycle(data, n);
    assert |r| == n;
    forall i | 0 <= i < n ensures r[i] == data[i] {
      ModBelow(i, |data|);
    }
  }

  lemma ModBelow(i: nat, m: nat)
    requires i < m
    ensures i % m == i
  {
  }

  /** When the data cover the whole mask, cycling is irrelevant: `mask`
      keeps exactly the masked entries of the data. */
  lemma MaskDataNoWrap<T>(k: Calib, data: seq<T>)
    requires |data| >= |k.mask|
    ensures MaskData(k, data) == Select(data, k.mask)
  {
    if |data| > 0 {
      CycleNoWrap(data, |k.mask|);
    } else {
      assert k.mask == [];
    }
    SelectPrefix(data, k.mask);
  }

  lemma {:induction false} CountTrueAnd(a: seq<bool>, b: seq<bool>)
    requires |a| == |b|
    ensures CountTrue(And(a, b)) <= CountTrue(a)
    ensures CountTrue(And(a, b)) <= CountTrue(b)
  {
    if |a| > 0 {
      assert And(a, b)[1..] == And(a[1..], b[1..]);
      CountTrueAnd(a[1..], b[1..]);
    }
  }

  /** Places the entries of `col` at the set positions of `mask` and 0
      elsewhere: a column of the calibration matrix on the full frame. */
  function Scatter(col: seq<real>, mask: seq<bool>): (r: seq<real>)
    requires |col| == CountTrue(mask)
    ensures |r| == |mask|
    ensures Select(r, mask) == col
  {
    if |mask| == 0 then []
    else if mask[0] then [col[0]] + Scatter(col[1..], mask[1..])
    else [0.0] + Scatter(col, mask[1..])
  }

  /** Mask `sub` contained in mask `sup`. */
  predicate SubMask(sub: seq<bool>, sup: seq<bool>) {
    |sub| == |sup| && forall i :: 0 <= i < |sub| ==> sub[i] ==> sup[i]
  }

  /** What `match_areas` does to one column: the entries under `own` whose
      position is also set in `m` are kept. Doing so is the same as putting
      the column back on the full frame and applying `m` there. */
  lemma {:induction false} RestrictColumn(col: seq<real>, own: seq<bool>, m: seq<bool>)
    requires |col| == CountTrue(own) && SubMask(m, own)
    ensures Select(col, Select(m, own)) == Select(Scatter(col, own), m)
  {
    if |own| > 0 {
      assert SubMask(m[1..], own[1..]) by {
        forall i | 0 <= i < |m| - 1 ensures m[1..][i] ==> own[1..][i] {
          assert m[i + 1] ==> own[i + 1];
        }
      }
      var sc := Scatter(col, own);
      if own[0] {
        assert Select(m, own) == [m[0]] + Select(m[1..], own[1..]);
        assert sc[0] == col[0] && sc[1..] == Scatter(col[1..], own[1..]);
        RestrictColumn(col[1..], own[1..], m[1..]);
      } else {
        assert !m[0];
        assert Select(m, own) == Select(m[1..], own[1..]);
        assert sc[1..] == Scatter(col, own[1..]);
        RestrictColumn(col, own[1..], m[1..]);
      }
    }
  }

  /** `Select(m, own)`: the entries of `m` under the set positions of `own`,
      one per row of a column. */
  lemma {:induction false} SelectSubMaskCount(own: seq<bool>, m: seq<bool>)
    requires SubMask(m, own)
    ensures |Select(m, own)| == CountTrue(own)
    ensures CountTrue(Select(m, own)) == CountTrue(m)
  {
    SelectLength(m, own);
    if |own| > 0 {
      assert SubMask(m[1..], own[1..]) by {
        forall i | 0 <= i < |m| - 1 ensures m[1..][i] ==> own[1..][i] {
          assert m[i + 1] ==> own[i + 1];
        }
      }
      SelectSubMaskCount(own[1..], m[1..]);
      if own[0] {
        assert Select(m, own) == [m[0]] + Select(m[1..], own[1..]);
        CountTrueAppend([m[0]], Select(m[1..], own[1..]));
      } else {
        assert !m[0];
        assert Select(m, own) == Select(m[1..], own[1..]);
      }
    }
  }

  /** Each `n`-chunk of `c` (the last one possibly shorter) reduced to the
      entries under `sel`, concatenated. */
  function KeepPerChunk(c: seq<real>, sel: seq<bool>, n: nat): (r: seq<real>)
    requires n > 0
    decreases |c|
  {
    if |c| == 0 then []
    else if |c| <= n then Select(c, sel)
    else Select(c[..n], sel) + KeepPerChunk(c[n..], sel, n)
  }

  /** A matrix of `rows` full columns keeps `CountTrue(sel)` entries per
      column. */
  lemma {:induction false} KeepPerChunkLength(c: seq<real>, sel: seq<bool>, n: nat, cols: nat)
    requires n > 0 && |sel| == n && |c| == cols * n
    ensures |KeepPerChunk(c, sel, n)| == cols * CountTrue(sel)
  {
    if cols > 0 {
      SelectLength(c[..n], sel);
      if cols == 1 {
        assert |c| == n && c[..n] == c;
      } else {
        assert |c| == (cols - 1) * n + n;
        assert |c[n..]| == (cols - 1) * n;
        KeepPerChunkLength(c[n..], sel, n, cols - 1);
        assert (cols - 1) * CountTrue(sel) + CountTrue(sel) == cols * CountTrue(sel);
      }
    } else {
      assert |c| == 0;
    }
  }

  /** `c` restricted, column by column, to the intersection mask `m`. */
  function Restrict(k: Calib, m: seq<bool>): (r: seq<real>)
    requires Area(k) > 0
  {
    KeepPerChunk(k.c, Select(m, k.mask), Area(k))
  }

  /** `match_areas`: both calibrations end up with the intersection of their
      masks and the matching rows. The mask lengths must agree (assert) and
      both areas must be positive (`chunks(0)` panics). */
  function MatchAreas(a: Calib, b: Calib): (r: (Calib, Calib))
    requires |a.mask| == |b.mask| && Area(a) > 0 && Area(b) > 0
    ensures r.0.mask == r.1.mask == And(a.mask, b.mask)
    ensures |r.0.mask| == |a.mask|
    ensures Area(r.0) <= Area(a) && Area(r.1) <= Area(b)
    ensures r.0 == a.(c := r.0.c, mask := r.0.mask) && r.1 == b.(c := r.1.c, mask := r.1.mask)
  {
    var m := And(a.mask, b.mask);
    CountTrueAnd(a.mask, b.mask);
    (a.(c := Restrict(a, m), mask := m), b.(c := Restrict(b, m), mask := m))
  }

  /** A calibration whose matrix has `cols` columns of `Area` rows keeps
      `cols` columns, now of the intersected area. */
  lemma MatchAreasShape(a: Calib, b: Calib, cols: nat)
    requires |a.mask| == |b.mask| && Area(a) > 0 && Area(b) > 0
    requires |a.c| == cols * Area(a)
    ensures |MatchAreas(a, b).0.c| == cols * Area(MatchAreas(a, b).0)
  {
    var m := And(a.mask, b.mask);
    assert SubMask(m, a.mask);
    SelectSubMaskCount(a.mask, m);
    KeepPerChunkLength(a.c, Select(m, a.mask), Area(a), cols);
  }

  /** On a single column, `match_areas` keeps exactly the entries of the
      column spread over the frame that fall under the intersection. */
  lemma MatchAreasColumn(a: Calib, b: Calib)
    requires |a.mask| == |b.mask| && Area(a) > 0 && Area(b) > 0
    requires |a.c| == Area(a)
    ensures MatchAreas(a, b).0.c == Select(Scatter(a.c, a.mask), And(a.mask, b.mask))
  {
    var m := And(a.mask, b.mask);
    assert SubMask(m, a.mask);
    RestrictColumn(a.c, a.mask, m);
  }

  lemma {:induction false} SelectAllTrue<T>(v: seq<T>, n: nat)
    requires |v| <= n
    ensures Select(v, Repeat(true, n)) == v
  {
    if |v| > 0 {
      assert Repeat(true, n)[1..] == Repeat(true, n - 1);
      SelectAllTrue(v[1..], n - 1);
    }
  }

  lemma {:induction false} SelectSelf(m: seq<bool>)
    ensures Select(m, m) == Repeat(true, CountTrue(m))
  {
    if |m| > 0 {
      SelectSelf(m[1..]);
      if m[0] {
        assert [true] + Repeat(true, CountTrue(m[1..])) == Repeat(true, CountTrue(m));
      }
    }
  }

  lemma {:induction false} KeepAll(c: seq<real>, n: nat)
    requires n > 0
    ensures KeepPerChunk(c, Repeat(true, n), n) == c
    decreases |c|
  {
    if |c| > 0 {
      if |c| <= n {
        SelectAllTrue(c, n);
      } else {
        SelectAllTrue(c[..n], n);
        KeepAll(c[n..], n);
        assert c[..n] + c[n..] == c;
      }
    }
  }

  /** Matching the areas of two already matched calibrations changes
      nothing. */
  lemma MatchAreasIdempotent(a: Calib, b: Calib)
    requires |a.mask| == |b.mask| && Area(a) > 0 && Area(b) > 0
    requires Area(MatchAreas(a, b).0) > 0
    ensures MatchAreas(MatchAreas(a, b).0, MatchAreas(a, b).1) == MatchAreas(a, b)
  {
    var (a1, b1) := MatchAreas(a, b);
    var m := a1.mask;
    assert And(m, m) == m;
    SelectSelf(m);
    KeepAll(a1.c, Area(a1));
    KeepAll(b1.c, Area(b1));
  }

  // ---------------------------------------------------------------------
  // Block assembly
  // ---------------------------------------------------------------------

  predicate AllShaped(row: seq<Calib>) {
    forall q :: 0 <= q < |row| ==> Shaped(row[q])
  }

  /** Sum of the column counts along a block row. */
  function RowNCols(row: seq<Calib>): (r: nat)
    requires AllShaped(row)
    ensures r == 0 <==> |row| == 0
  {
    if |row| == 0 then 0 else NCols(row[0]) + RowNCols(row[1..])
  }

  /** Column `j` of a calibration matrix, `n_rows` entries long. */
  function ColumnOf(k: Calib, j: nat): (r: seq<real>)
    requires Shaped(k) && j < NCols(k)
    ensures |r| == NRows(k)
  {
    MulBound(j, NCols(k), NRows(k));
    k.c[j * NRows(k)..(j + 1) * NRows(k)]
  }

  lemma MulBound(j: nat, n: nat, h: nat)
    requires j < n
    ensures (j + 1) * h <= n * h && j * h + h == (j + 1) * h
  {
  }

  /** Column `j` of a block row: the column of the calibration it falls in.
      Every calibration of the row has the same row count. */
  function RowColumn(row: seq<Calib>, j: nat): (r: seq<real>)
    requires UniformRow(row) && j < RowNCols(row)
    ensures |r| == NRows(row[0])
  {
    if j < NCols(row[0]) then ColumnOf(row[0], j)
    else
      assert NRows(row[1]) == NRows(row[0]);
      assert UniformRow(row[1..]) by {
        forall q | 0 <= q < |row| - 1 ensures Shaped(row[1..][q]) && NRows(row[1..][q]) == NRows(row[1]) {
          assert row[1..][q] == row[q + 1];
        }
      }
      RowColumn(row[1..], j - NCols(row[0]))
  }

  /** A non-empty block row of well-shaped calibrations of equal height. */
  predicate UniformRow(row: seq<Calib>) {
    |row| > 0 && AllShaped(row) && forall q :: 0 <= q < |row| ==> NRows(row[q]) == NRows(row[0])
  }

  /** The block's vertical stack: heights of the block rows. */
  function Heights(grid: seq<seq<Calib>>): (r: nat)
    requires forall p :: 0 <= p < |grid| ==> UniformRow(grid[p])
  {
    if |grid| == 0 then 0
    else
      assert UniformRow(grid[0]);
      assert forall p :: 0 <= p < |grid| - 1 ==> grid[1..][p] == grid[p + 1];
      NRows(grid[0][0]) + Heights(grid[1..])
  }

  /** Requirements of `block`: a non-empty grid of non-empty rows of
      well-shaped calibrations, every row with the same column count
      (panic otherwise) and, within a row, the same row count (panic
      otherwise). */
  predicate Blockable(grid: seq<seq<Calib>>) {
    && |grid| > 0
    && (forall p :: 0 <= p < |grid| ==> UniformRow(grid[p]))
    && (forall p :: 0 <= p < |grid| ==> RowNCols(grid[p]) == RowNCols(grid[0]))
  }

  /** Column `j` of the block matrix: the row blocks' columns stacked. */
  function BlockColumn(grid: seq<seq<Calib>>, j: nat): (r: seq<real>)
    requires forall p :: 0 <= p < |grid| ==> UniformRow(grid[p]) && j < RowNCols(grid[p])
    ensures |r| == Heights(grid)
  {
    if |grid| == 0 then [] else RowColumn(grid[0], j) + BlockColumn(grid[1..], j)
  }

  /** Columns `j..n` of the block matrix, column-major. */
  function BlockColumnsFrom(grid: seq<seq<Calib>>, j: nat, n: nat): (r: seq<real>)
    requires j <= n
    requires forall p :: 0 <= p < |grid| ==> UniformRow(grid[p]) && n <= RowNCols(grid[p])
    decreases n - j
  {
    if j == n then [] else BlockColumn(grid, j) + BlockColumnsFrom(grid, j + 1, n)
  }

  lemma {:induction false} BlockColumnsLength(grid: seq<seq<Calib>>, j: nat, n: nat)
    requires j <= n
    requires forall p :: 0 <= p < |grid| ==> UniformRow(grid[p]) && n <= RowNCols(grid[p])
    ensures |BlockColumnsFrom(grid, j, n)| == (n - j) * Heights(grid)
    decreases n - j
  {
    var h := Heights(grid);
    if j < n {
      BlockColumnsLength(grid, j + 1, n);
      var rest := |BlockColumnsFrom(grid, j + 1, n)|;
      assert |BlockColumnsFrom(grid, j, n)| == h + rest;
      AddColumn(h, rest, n - j);
    } else {
      NoColumn(h, n - j);
    }
  }

  lemma NoColumn(h: nat, m: nat)
    requires m == 0
    ensures m * h == 0
  {
  }

  lemma AddColumn(h: nat, rest: nat, m: nat)
    requires m > 0 && rest == (m - 1) * h
    ensures h + rest == m * h
  {
    MulSucc(m - 1, h);
  }

  /** Mask of a block row: the first calibration's mask, ANDed with the
      mask of every calibration of the row over their common length. */
  function RowMask(acc: seq<bool>, row: seq<Calib>): (r: seq<bool>)
    ensures |r| == |acc|
    decreases |row|
  {
    if |row| == 0 then acc
    else RowMask(AndPrefix(acc, row[0].mask), row[1..])
  }

  /** `acc.iter_mut().zip(m).for_each(|(a, b)| *a &= b)`: the entries of
      `acc` past the end of `m` are left as they are. */
  function AndPrefix(acc: seq<bool>, m: seq<bool>): (r: seq<bool>)
    ensures |r| == |acc|
    ensures forall i :: 0 <= i < |r| ==> (r[i] <==> acc[i] && (i < |m| ==> m[i]))
  {
    seq(|acc|, i requires 0 <= i < |acc| => if i < |m| then acc[i] && m[i] else acc[i])
  }

  /** A row mask entry is set iff it is set in the first mask and in every
      mask of the row long enough to reach it. */
  lemma {:induction false} RowMaskContent(acc: seq<bool>, row: seq<Calib>, i: nat)
    requires i < |acc|
    ensures RowMask(acc, row)[i] <==> acc[i] && forall q :: 0 <= q < |row| && i < |row[q].mask| ==> row[q].mask[i]
    decreases |row|
  {
    if |row| > 0 {
      var next := AndPrefix(acc, row[0].mask);
      RowMaskContent(next, row[1..], i);
      assert forall q :: 0 <= q < |row| - 1 ==> row[1..][q] == row[q + 1];
      assert (forall q :: 0 <= q < |row| && i < |row[q].mask| ==> row[q].mask[i]) <==>
        ((i < |row[0].mask| ==> row[0].mask[i]) && forall q :: 0 <= q < |row[1..]| && i < |row[1..][q].mask| ==> row[1..][q].mask[i]);
    }
  }

  /** The masks of all block rows, concatenated. */
  function BlockMask(grid: seq<seq<Calib>>): (r: seq<bool>)
    requires forall p :: 0 <= p < |grid| ==> |grid[p]| > 0
  {
    if |grid| == 0 then [] else RowMask(grid[0][0].mask, grid[0]) + BlockMask(grid[1..])
  }

  /** `Calib::block`: assembles a 2-D array of calibrations into one
      calibration. The result has segment 0, the default (empty RBM) mode,
      `n_mode = n_cols` = the common column count of the rows, and as many
      rows as the block rows' heights add up to. */
  function Block(grid: seq<seq<Calib>>): (r: Calib)
    requires Blockable(grid)
    ensures r.sid == 0 && r.mode == RBM(NoRbm)
    ensures r.nCols == Some(RowNCols(grid[0])) && r.n_mode == RowNCols(grid[0])
    ensures Shaped(r) && NCols(r) == RowNCols(grid[0]) && NRows(r) == Heights(grid)
  {
    var n := RowNCols(grid[0]);
    var c := BlockColumnsFrom(grid, 0, n);
    var r := Calib(0, n, c, BlockMask(grid), RBM(NoRbm), Some(n));
    BlockColumnsLength(grid, 0, n);
    ShapedOfHeight(r, Heights(grid));
    r
  }

  /** A calibration whose matrix holds `h` entries per column is shaped,
      with `h` rows. */
  lemma ShapedOfHeight(k: Calib, h: nat)
    requires HasNCols(k) && NCols(k) > 0 && |k.c| == NCols(k) * h
    ensures Shaped(k) && NRows(k) == h
  {
    var n := NCols(k);
    assert |k.c| == h * n;
    DivExact(h, n);
  }

  lemma DivExact(h: nat, n: nat)
    requires n > 0
    ensures (h * n) / n == h
  {
    var q := (h * n) / n;
    assert q * n + (h * n) % n == h * n;
    if q < h {
      MulMono(q + 1, h, n);
    } else if q > h {
      MulMono(h + 1, q, n);
    }
  }

  lemma MulSucc(a: nat, b: nat)
    ensures (a + 1) * b == a * b + b
  {
  }

  lemma MulMono(a: nat, b: nat, n: nat)
    requires a <= b
    ensures a * n <= b * n
  {
  }

  /** The matrices of a row, one after the other. */
  function RowEntries(row: seq<Calib>): seq<real> {
    if |row| == 0 then [] else row[0].c + RowEntries(row[1..])
  }

  lemma UniformTail(row: seq<Calib>)
    requires UniformRow(row) && |row| > 1
    ensures UniformRow(row[1..])
  {
    forall q | 0 <= q < |row| - 1 ensures Shaped(row[1..][q]) && NRows(row[1..][q]) == NRows(row[1]) {
      assert row[1..][q] == row[q + 1];
    }
  }

  /** The columns `j..` of the first calibration of a row, taken from the
      block, are the tail of its column-major entries from `lo`, the start
      of column `j`. */
  lemma {:induction false} BlockRowHead(row: seq<Calib>, j: nat, lo: nat)
    requires UniformRow(row) && j <= NCols(row[0])
    requires lo == j * NRows(row[0]) && lo <= |row[0].c|
    ensures BlockColumnsFrom([row], j, RowNCols(row))
         == row[0].c[lo..] + BlockColumnsFrom([row], NCols(row[0]), RowNCols(row))
    decreases NCols(row[0]) - j
  {
    var k, n := row[0], RowNCols(row);
    var h, n0 := NRows(k), NCols(k);
    if j < n0 {
      var hi := lo + h;
      assert hi == (j + 1) * h && hi <= |k.c| by {
        MulBound(j, n0, h);
      }
      var col, rest := BlockColumn([row], j), BlockColumnsFrom([row], j + 1, n);
      assert col == k.c[lo..hi] by {
        assert [row][1..] == [];
      }
      assert rest == k.c[hi..] + BlockColumnsFrom([row], n0, n) by {
        BlockRowHead(row, j + 1, hi);
      }
      assert BlockColumnsFrom([row], j, n) == col + rest;
      SliceJoin(k.c, lo, hi);
      AppendAssoc(k.c[lo..hi], k.c[hi..], BlockColumnsFrom([row], n0, n));
    } else {
      assert lo == |k.c|;
    }
  }

  /** Past the first calibration, the block row's columns are those of the
      rest of the row. */
  lemma {:induction false} BlockRowTail(row: seq<Calib>, j: nat)
    requires UniformRow(row) && |row| > 1 && NCols(row[0]) <= j <= RowNCols(row)
    ensures UniformRow(row[1..])
    ensures BlockColumnsFrom([row], j, RowNCols(row))
         == BlockColumnsFrom([row[1..]], j - NCols(row[0]), RowNCols(row[1..]))
    decreases RowNCols(row) - j
  {
    UniformTail(row);
    if j < RowNCols(row) {
      BlockRowTail(row, j + 1);
      TailStep(row, j);
    }
  }

  lemma TailStep(row: seq<Calib>, j: nat)
    requires UniformRow(row) && |row| > 1 && NCols(row[0]) <= j < RowNCols(row)
    requires UniformRow(row[1..]) && RowNCols(row) == NCols(row[0]) + RowNCols(row[1..])
    requires BlockColumnsFrom([row], j + 1, RowNCols(row))
          == BlockColumnsFrom([row[1..]], j + 1 - NCols(row[0]), RowNCols(row[1..]))
    ensures BlockColumnsFrom([row], j, RowNCols(row))
         == BlockColumnsFrom([row[1..]], j - NCols(row[0]), RowNCols(row[1..]))
  {
    ColumnTail(row, j);
  }

  lemma ColumnTail(row: seq<Calib>, j: nat)
    requires UniformRow(row) && |row| > 1 && NCols(row[0]) <= j < RowNCols(row)
    requires UniformRow(row[1..]) && RowNCols(row) == NCols(row[0]) + RowNCols(row[1..])
    ensures BlockColumn([row], j) == BlockColumn([row[1..]], j - NCols(row[0]))
  {
    assert [row][1..] == [] && [row[1..]][1..] == [];
  }

  /** A single block row is the horizontal concatenation of its matrices,
      which in column-major order is the concatenation of their entries. */
  lemma {:induction false} BlockRowEntries(row: seq<Calib>)
    requires UniformRow(row)
    ensures BlockColumnsFrom([row], 0, RowNCols(row)) == RowEntries(row)
    decreases |row|
  {
    BlockRowHead(row, 0, 0);
    var k := row[0];
    if |row| == 1 {
      assert RowNCols(row) == NCols(k) && RowEntries(row) == k.c;
    } else {
      BlockRowTail(row, NCols(k));
      BlockRowEntries(row[1..]);
    }
  }

  /** `block` of a single row: the entries are the row's matrices one after
      the other and the mask is the row's mask. */
  lemma BlockOneRow(row: seq<Calib>)
    requires UniformRow(row)
    ensures Blockable([row])
    ensures Block([row]).c == RowEntries(row)
    ensures Block([row]).mask == RowMask(row[0].mask, row)
  {
    var grid := [row];
    assert grid[0] == row && grid[1..] == [];
    assert Blockable(grid);
    BlockRowEntries(row);
    assert BlockMask(grid) == RowMask(row[0].mask, row) + BlockMask([]);
  }

  // ---------------------------------------------------------------------
  // Examples from the documentation and the unit tests
  // ---------------------------------------------------------------------

  /** One arcsecond in radians. */
  const ArcSec: real := 0.00000484813681109536

  /** The calibration of the doc examples: an identity on Rx and Ry. */
  const Doc := Calib(0, 6, [1.0, 0.0, 0.0, 1.0], [false, false, false, true, true, false],
    RBM([None, None, None, Some(ArcSec), Some(ArcSec), None]), None)

  lemma DocExample()
    ensures Area(Doc) == 2
    ensures HasNCols(Doc) && NCols(Doc) == 2 && NRows(Doc) == 2 && Shaped(Doc)
    ensures MaskData(Doc, [1.0, 2.0, 3.0, 4.0, 5.0, 6.0]) == [4.0, 5.0]
    ensures ToI8(Doc) == [0, 0, 0]
  {
    DocColumns();
    MaskDataNoWrap(Doc, [1.0, 2.0, 3.0, 4.0, 5.0, 6.0]);
  }

  /** Two of the six rigid body motions are set. */
  lemma DocColumns()
    ensures CountSome(Doc.mode.rbms) == 2
  {
    var r := Doc.mode.rbms;
    assert CountSome(r[5..]) == 0 by { assert r[5..][1..] == []; }
    assert CountSome(r[4..]) == 1 by { assert r[4..][1..] == r[5..]; }
    assert CountSome(r[3..]) == 2 by { assert r[3..][1..] == r[4..]; }
    assert CountSome(r[2..]) == 2 by { assert r[2..][1..] == r[3..]; }
    assert CountSome(r[1..]) == 2 by { assert r[1..][1..] == r[2..]; }
  }

  /** `block_ab`: a 2×3 and a 2×2 calibration side by side. */
  lemma BlockSideBySide()
    ensures
      var a := Calib(0, 2, [1.0, 2.0, 3.0, 4.0, 9.0, 0.0], [true, true], RBM(NoRbm), Some(3));
      var b := Calib(0, 2, [5.0, 6.0, 7.0, 8.0], [true, false], RBM(NoRbm), Some(2));
      && Blockable([[a, b]])
      && NCols(Block([[a, b]])) == 5 && NRows(Block([[a, b]])) == 2
      && Block([[a, b]]).c == a.c + b.c
      && Block([[a, b]]).mask == [true, false]
  {
    var a := Calib(0, 2, [1.0, 2.0, 3.0, 4.0, 9.0, 0.0], [true, true], RBM(NoRbm), Some(3));
    var b := Calib(0, 2, [5.0, 6.0, 7.0, 8.0], [true, false], RBM(NoRbm), Some(2));
    assert NRows(a) == 2 && NRows(b) == 2;
    BlockOneRow([a, b]);
    assert [a, b][1..] == [b] && [b][1..] == [];
    assert RowEntries([a, b]) == a.c + b.c by {
      assert RowEntries([b]) == b.c + RowEntries([]);
    }
    assert RowMask(a.mask, [a, b]) == [true, false] by {
      RowMaskContent(a.mask, [a, b], 0);
      RowMaskContent(a.mask, [a, b], 1);
    }
  }
}
