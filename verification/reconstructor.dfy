/**
 The `Reconstructor`: a collection of segment calibration matrices, each
 with a lazily computed pseudo-inverse slot, and the bookkeeping done on
 the collection — total area, area matching, mask cross-talks, the
 block-diagonal collapse and the in-place subtraction.
 */
module Reconstructors {
  import opened Common
  import opened CalibrationModes
  import opened CalibMatrix

  /** A pseudo-inverse: its entries and the condition number. Computing it
      (an SVD) is outside the model and is passed in as a function. */
  datatype Pinv = Pinv(mat: seq<real>, cond: real)

  /** `Reconstructor`; the data and estimate buffers of the actor client
      are left out. */
  datatype Reconstructor = Reconstructor(calib: seq<Calib>, pinv: seq<Option<Pinv>>)

  /** `new(calib)`: one empty pseudo-inverse slot per calibration. */
  function New(calib: seq<Calib>): (r: Reconstructor)
    ensures r.calib == calib && |r.pinv| == |calib|
    ensures forall q :: 0 <= q < |r.pinv| ==> r.pinv[q].None?
  {
    Reconstructor(calib, seq(|calib|, _ => None))
  }

  /** `From<Calib>`: a reconstructor of one calibration. */
  function FromCalib(k: Calib): (r: Reconstructor)
    ensures r.calib == [k] && r.pinv == [None]
  {
    New([k])
  }

  /** `len()` */
  function Len(r: Reconstructor): (n: nat)
    ensures n == 0 <==> r.calib == []
  {
    |r.calib|
  }

  /** The number of calibrations is the one the reconstructor was made with,
      and filling pseudo-inverses, matching areas and subtracting matrices
      keep it. */
  lemma LenKept(cs: seq<Calib>, r: Reconstructor, o: Reconstructor, pseudoinverse: Calib -> Pinv, rhs: seq<seq<real>>)
    requires PairwiseMatchable(r.calib, o.calib)
    requires forall q :: 0 <= q < |r.calib| && q < |rhs| ==> |rhs[q]| == |r.calib[q].c|
    ensures Len(New(cs)) == |cs|
    ensures Len(FillPinv(r, pseudoinverse)) == Len(r)
    ensures Len(MatchAreas(r, o).0) == Len(r) && Len(MatchAreas(r, o).1) == Len(o)
    ensures Len(SubAssign(r, rhs)) == Len(r)
  {
  }

  /** `pinv()`: every slot paired with a calibration is filled with that
      calibration's pseudo-inverse unless it already holds one
      (`get_or_insert_with`). */
  function FillPinv(r: Reconstructor, pseudoinverse: Calib -> Pinv): (s: Reconstructor)
    ensures s.calib == r.calib && |s.pinv| == |r.pinv|
    ensures forall q :: 0 <= q < |r.pinv| && q < |r.calib| ==>
      s.pinv[q] == (if r.pinv[q].Some? then r.pinv[q] else Some(pseudoinverse(r.calib[q])))
    ensures forall q :: |r.calib| <= q < |r.pinv| ==> s.pinv[q] == r.pinv[q]
  {
    var p := seq(|r.pinv|, q requires 0 <= q < |r.pinv| =>
      if q < |r.calib| && r.pinv[q].None? then Some(pseudoinverse(r.calib[q])) else r.pinv[q]);
    Reconstructor(r.calib, p)
  }

  /** A pseudo-inverse, once computed, is reused: filling twice is filling
      once. */
  lemma FillPinvIdempotent(r: Reconstructor, pseudoinverse: Calib -> Pinv)
    ensures FillPinv(FillPinv(r, pseudoinverse), pseudoinverse) == FillPinv(r, pseudoinverse)
  {
  }

  /** On a fresh reconstructor the slots hold exactly the pseudo-inverses of
      the calibrations. */
  lemma FillPinvFresh(calib: seq<Calib>, pseudoinverse: Calib -> Pinv)
    ensures forall q :: 0 <= q < |calib| ==> FillPinv(New(calib), pseudoinverse).pinv[q] == Some(pseudoinverse(calib[q]))
  {
  }

  /** Total area of a list of calibrations. */
  function SumArea(cs: seq<Calib>): nat {
    if |cs| == 0 then 0 else Area(cs[0]) + SumArea(cs[1..])
  }

  /** `area()`: the number of valid entries over all the calibrations. */
  function TotalArea(r: Reconstructor): nat {
    SumArea(r.calib)
  }

  lemma {:induction false} SumAreaAppend(a: seq<Calib>, b: seq<Calib>)
    ensures SumArea(a + b) == SumArea(a) + SumArea(b)
  {
    if |a| > 0 {
      assert (a + b)[1..] == a[1..] + b;
      SumAreaAppend(a[1..], b);
    } else {
      assert a + b == b;
    }
  }

  /** The area of a reconstructor made of two lists of calibrations is the
      sum of their areas. */
  lemma TotalAreaAdditive(a: seq<Calib>, b: seq<Calib>)
    ensures TotalArea(New(a + b)) == TotalArea(New(a)) + TotalArea(New(b))
  {
    SumAreaAppend(a, b);
  }

  // ---------------------------------------------------------------------
  // match_areas
  // ---------------------------------------------------------------------

  /** The requirements of `Calib::match_areas` on one pair. */
  predicate Matchable(a: Calib, b: Calib) {
    |a.mask| == |b.mask| && Area(a) > 0 && Area(b) > 0
  }

  predicate PairwiseMatchable(a: seq<Calib>, b: seq<Calib>) {
    forall q :: 0 <= q < |a| && q < |b| ==> Matchable(a[q], b[q])
  }

  /** The calibrations of both lists matched pairwise, the longer list's
      tail left as it is. */
  function MatchLists(a: seq<Calib>, b: seq<Calib>): (r: (seq<Calib>, seq<Calib>))
    requires PairwiseMatchable(a, b)
    ensures |r.0| == |a| && |r.1| == |b|
    ensures forall q :: 0 <= q < |a| && q < |b| ==> (r.0[q], r.1[q]) == CalibMatrix.MatchAreas(a[q], b[q])
    ensures forall q :: |b| <= q < |a| ==> r.0[q] == a[q]
    ensures forall q :: |a| <= q < |b| ==> r.1[q] == b[q]
  {
    var n := Min(|a|, |b|);
    (seq(|a|, q requires 0 <= q < |a| => if q < n then CalibMatrix.MatchAreas(a[q], b[q]).0 else a[q]),
     seq(|b|, q requires 0 <= q < |b| => if q < n then CalibMatrix.MatchAreas(a[q], b[q]).1 else b[q]))
  }

  /** `match_areas`: every pair of calibrations ends up with the same mask,
      their intersection; the pseudo-inverse slots are not touched. */
  function MatchAreas(r: Reconstructor, o: Reconstructor): (s: (Reconstructor, Reconstructor))
    requires PairwiseMatchable(r.calib, o.calib)
    ensures s.0.pinv == r.pinv && s.1.pinv == o.pinv
    ensures |s.0.calib| == |r.calib| && |s.1.calib| == |o.calib|
    ensures forall q :: 0 <= q < |r.calib| && q < |o.calib| ==>
      s.0.calib[q].mask == s.1.calib[q].mask == And(r.calib[q].mask, o.calib[q].mask)
    ensures forall q :: 0 <= q < |r.calib| && q < |o.calib| ==>
      Area(s.0.calib[q]) <= Area(r.calib[q]) && Area(s.1.calib[q]) <= Area(o.calib[q])
  {
    var m := MatchLists(r.calib, o.calib);
    (Reconstructor(m.0, r.pinv), Reconstructor(m.1, o.pinv))
  }

  /** Matching the areas of two matched reconstructors changes nothing
      (as long as no intersection is empty). */
  lemma MatchAreasIdempotent(r: Reconstructor, o: Reconstructor)
    requires PairwiseMatchable(r.calib, o.calib)
    requires forall q :: 0 <= q < |r.calib| && q < |o.calib| ==> Area(MatchAreas(r, o).0.calib[q]) > 0
    ensures PairwiseMatchable(MatchAreas(r, o).0.calib, MatchAreas(r, o).1.calib)
    ensures MatchAreas(MatchAreas(r, o).0, MatchAreas(r, o).1) == MatchAreas(r, o)
  {
    var s := MatchAreas(r, o);
    forall q | 0 <= q < |r.calib| && q < |o.calib|
      ensures Matchable(s.0.calib[q], s.1.calib[q])
      ensures CalibMatrix.MatchAreas(s.0.calib[q], s.1.calib[q]) == (s.0.calib[q], s.1.calib[q])
    {
      CalibMatrix.MatchAreasIdempotent(r.calib[q], o.calib[q]);
    }
    var t := MatchAreas(s.0, s.1);
    assert t.0.calib == s.0.calib;
    assert t.1.calib == s.1.calib;
  }

  // ---------------------------------------------------------------------
  // Cross-talks
  // ---------------------------------------------------------------------

  /** Number of calibrations whose mask has entry `i` set. */
  function Hits(cs: seq<Calib>, i: nat): (r: nat)
    requires forall q :: 0 <= q < |cs| ==> i < |cs[q].mask|
    ensures r <= |cs|
  {
    if |cs| == 0 then 0 else (if cs[0].mask[i] then 1 else 0) + Hits(cs[1..], i)
  }

  /** `cross_talks` indexes every mask up to the length of the first one. */
  predicate CrossTalkable(r: Reconstructor) {
    |r.calib| > 0 && forall q :: 0 <= q < |r.calib| ==> |r.calib[0].mask| <= |r.calib[q].mask|
  }

  /** `cross_talks()`: for each entry of the first mask, how many
      calibrations use it. */
  function CrossTalks(r: Reconstructor): (v: seq<nat>)
    requires CrossTalkable(r)
    ensures |v| == |r.calib[0].mask|
    ensures forall i :: 0 <= i < |v| ==> v[i] <= |r.calib|
    ensures forall i :: 0 <= i < |v| ==> (v[i] == 0 <==> forall q :: 0 <= q < |r.calib| ==> !r.calib[q].mask[i])
  {
    var n := |r.calib[0].mask|;
    var v := seq(n, i requires 0 <= i < n => Hits(r.calib, i));
    assert forall i :: 0 <= i < n ==> (v[i] == 0 <==> forall q :: 0 <= q < |r.calib| ==> !r.calib[q].mask[i]) by {
      forall i | 0 <= i < n {
        HitsZero(r.calib, i);
      }
    }
    v
  }

  lemma {:induction false} HitsZero(cs: seq<Calib>, i: nat)
    requires forall q :: 0 <= q < |cs| ==> i < |cs[q].mask|
    ensures Hits(cs, i) == 0 <==> forall q :: 0 <= q < |cs| ==> !cs[q].mask[i]
  {
    if |cs| > 0 {
      HitsZero(cs[1..], i);
      assert forall q :: 0 <= q < |cs| - 1 ==> cs[1..][q] == cs[q + 1];
    }
  }

  /** At most one calibration uses entry `i` iff no two do. */
  lemma {:induction false} HitsAtMostOne(cs: seq<Calib>, i: nat)
    requires forall q :: 0 <= q < |cs| ==> i < |cs[q].mask|
    ensures Hits(cs, i) <= 1 <==> forall p, q :: 0 <= p < q < |cs| ==> !(cs[p].mask[i] && cs[q].mask[i])
  {
    if |cs| > 0 {
      var rest := cs[1..];
      HitsAtMostOne(rest, i);
      HitsZero(rest, i);
      assert forall q :: 0 <= q < |cs| - 1 ==> rest[q] == cs[q + 1];
      if Hits(cs, i) <= 1 {
        forall p, q | 0 <= p < q < |cs| ensures !(cs[p].mask[i] && cs[q].mask[i]) {
          if p > 0 {
            assert rest[p - 1] == cs[p] && rest[q - 1] == cs[q];
          } else {
            assert rest[q - 1] == cs[q];
          }
        }
      } else {
        if cs[0].mask[i] {
          var q :| 0 <= q < |rest| && rest[q].mask[i];
          assert cs[0].mask[i] && cs[q + 1].mask[i];
        } else {
          var p, q :| 0 <= p < q < |rest| && rest[p].mask[i] && rest[q].mask[i];
          assert cs[p + 1].mask[i] && cs[q + 1].mask[i];
        }
      }
    }
  }

  /** `n_cross_talks()`: the number of entries used by more than one
      calibration. */
  function NCrossTalks(r: Reconstructor): (n: nat)
    requires CrossTalkable(r)
    ensures n <= |r.calib[0].mask|
  {
    var ct := CrossTalks(r);
    CountTrue(seq(|ct|, i requires 0 <= i < |ct| => ct[i] > 1))
  }

  lemma {:induction false} CountTrueZero(m: seq<bool>)
    ensures CountTrue(m) == 0 <==> forall i :: 0 <= i < |m| ==> !m[i]
  {
    if |m| > 0 {
      CountTrueZero(m[1..]);
      assert forall i :: 0 <= i < |m| - 1 ==> m[1..][i] == m[i + 1];
    }
  }

  /** There is no cross-talk iff the masks are pairwise disjoint (over the
      entries of the first mask). */
  lemma NoCrossTalkIffDisjoint(r: Reconstructor)
    requires CrossTalkable(r)
    ensures NCrossTalks(r) == 0 <==>
      forall i, p, q :: 0 <= i < |r.calib[0].mask| && 0 <= p < q < |r.calib| ==>
        !(r.calib[p].mask[i] && r.calib[q].mask[i])
  {
    if NCrossTalks(r) == 0 {
      NoCrossTalkDisjoint(r);
    } else {
      CrossTalkOverlap(r);
    }
  }

  /** The entries counted as cross-talks: those hit by more than one
      calibration. */
  lemma CrossTalkEntries(r: Reconstructor) returns (m: seq<bool>)
    requires CrossTalkable(r)
    ensures |m| == |r.calib[0].mask| && NCrossTalks(r) == CountTrue(m)
    ensures forall i :: 0 <= i < |m| ==>
      (!m[i] <==> forall p, q :: 0 <= p < q < |r.calib| ==> !(r.calib[p].mask[i] && r.calib[q].mask[i]))
  {
    var ct := CrossTalks(r);
    m := seq(|ct|, i requires 0 <= i < |ct| => ct[i] > 1);
    forall i | 0 <= i < |m|
      ensures !m[i] <==> forall p, q :: 0 <= p < q < |r.calib| ==> !(r.calib[p].mask[i] && r.calib[q].mask[i])
    {
      HitsAtMostOne(r.calib, i);
    }
  }

  lemma NoCrossTalkDisjoint(r: Reconstructor)
    requires CrossTalkable(r) && NCrossTalks(r) == 0
    ensures forall i, p, q :: 0 <= i < |r.calib[0].mask| && 0 <= p < q < |r.calib| ==>
      !(r.calib[p].mask[i] && r.calib[q].mask[i])
  {
    var m := CrossTalkEntries(r);
    CountTrueZero(m);
    forall i, p, q | 0 <= i < |m| && 0 <= p < q < |r.calib|
      ensures !(r.calib[p].mask[i] && r.calib[q].mask[i])
    {
      assert !m[i];
    }
  }

  lemma CrossTalkOverlap(r: Reconstructor)
    requires CrossTalkable(r) && NCrossTalks(r) != 0
    ensures exists i, p, q ::
      0 <= i < |r.calib[0].mask| && 0 <= p < q < |r.calib| && r.calib[p].mask[i] && r.calib[q].mask[i]
  {
    var m := CrossTalkEntries(r);
    CountTrueZero(m);
    var i :| 0 <= i < |m| && m[i];
    var p, q :| 0 <= p < q < |r.calib| && r.calib[p].mask[i] && r.calib[q].mask[i];
  }

  /** Pointwise sum of two count vectors. */
  function AddCounts(a: seq<int>, b: seq<int>): (r: seq<int>)
    requires |a| == |b|
    ensures |r| == |a| && forall i :: 0 <= i < |r| ==> r[i] == a[i] + b[i]
  {
    seq(|a|, i requires 0 <= i < |a| => a[i] + b[i])
  }

  lemma {:induction false} SumAddCounts(a: seq<int>, b: seq<int>)
    requires |a| == |b|
    ensures Sum(AddCounts(a, b)) == Sum(a) + Sum(b)
  {
    if |a| > 0 {
      assert AddCounts(a, b)[1..] == AddCounts(a[1..], b[1..]);
      SumAddCounts(a[1..], b[1..]);
    }
  }

  /** The 0/1 vector of the first `n` entries of one mask. */
  function Indicator(m: seq<bool>, n: nat): (r: seq<int>)
    requires n <= |m|
    ensures |r| == n && forall i :: 0 <= i < n ==> r[i] == (if m[i] then 1 else 0)
  {
    seq(n, i requires 0 <= i < n => if m[i] then 1 else 0)
  }

  lemma {:induction false} IndicatorSum(m: seq<bool>)
    ensures Sum(Indicator(m, |m|)) == CountTrue(m)
  {
    if |m| > 0 {
      assert Indicator(m, |m|)[1..] == Indicator(m[1..], |m| - 1);
      IndicatorSum(m[1..]);
    }
  }

  function HitVector(cs: seq<Calib>, n: nat): (r: seq<int>)
    requires forall q :: 0 <= q < |cs| ==> n <= |cs[q].mask|
    ensures |r| == n && forall i :: 0 <= i < n ==> r[i] == Hits(cs, i)
  {
    seq(n, i requires 0 <= i < n => Hits(cs, i))
  }

  lemma {:induction false} HitVectorSum(cs: seq<Calib>, n: nat)
    requires forall q :: 0 <= q < |cs| ==> |cs[q].mask| == n
    ensures Sum(HitVector(cs, n)) == SumArea(cs)
  {
    if |cs| == 0 {
      ZeroSum(HitVector(cs, n));
    } else {
      assert forall q :: 0 <= q < |cs| - 1 ==> cs[1..][q] == cs[q + 1];
      HitVectorSum(cs[1..], n);
      assert HitVector(cs, n) == AddCounts(Indicator(cs[0].mask, n), HitVector(cs[1..], n));
      SumAddCounts(Indicator(cs[0].mask, n), HitVector(cs[1..], n));
      IndicatorSum(cs[0].mask);
    }
  }

  lemma {:induction false} ZeroSum(s: seq<int>)
    requires forall i :: 0 <= i < |s| ==> s[i] == 0
    ensures Sum(s) == 0
  {
    if |s| > 0 {
      ZeroSum(s[1..]);
    }
  }

  /** Counting each valid entry once per calibration that uses it: when
      all masks have the same length, the cross-talk vector adds up to the
      total area. */
  lemma CrossTalksSumToArea(r: Reconstructor)
    requires CrossTalkable(r)
    requires forall q :: 0 <= q < |r.calib| ==> |r.calib[q].mask| == |r.calib[0].mask|
    ensures Sum(CrossTalks(r)) == TotalArea(r)
  {
    var n := |r.calib[0].mask|;
    assert CrossTalks(r) == HitVector(r.calib, n);
    HitVectorSum(r.calib, n);
  }

  // ---------------------------------------------------------------------
  // diagonal
  // ---------------------------------------------------------------------

  predicate AllShapedCalibs(cs: seq<Calib>) {
    forall q :: 0 <= q < |cs| ==> Shaped(cs[q])
  }

  function SumRows(cs: seq<Calib>): nat
    requires AllShapedCalibs(cs)
  {
    if |cs| == 0 then 0 else NRows(cs[0]) + SumRows(cs[1..])
  }

  function SumCols(cs: seq<Calib>): nat
    requires AllShapedCalibs(cs)
  {
    if |cs| == 0 then 0 else NCols(cs[0]) + SumCols(cs[1..])
  }

  function SumNMode(cs: seq<Calib>): nat {
    if |cs| == 0 then 0 else cs[0].n_mode + SumNMode(cs[1..])
  }

  /** The masks of the calibrations one after the other. */
  function Masks(cs: seq<Calib>): seq<bool> {
    if |cs| == 0 then [] else cs[0].mask + Masks(cs[1..])
  }

  /** Columns `j..` of `k`, each padded with `above` zeros on top and
      `below` zeros underneath. */
  function PaddedColumns(k: Calib, j: nat, above: nat, below: nat): (r: seq<real>)
    requires Shaped(k) && j <= NCols(k)
    decreases NCols(k) - j
  {
    if j == NCols(k) then []
    else Repeat(0.0, above) + ColumnOf(k, j) + Repeat(0.0, below) + PaddedColumns(k, j + 1, above, below)
  }

  /** Diagonal blocks of `cs`, the first starting at row `above` of an
      `n`-row matrix. */
  function DiagonalColumns(cs: seq<Calib>, above: nat, n: nat): (r: seq<real>)
    requires AllShapedCalibs(cs) && above + SumRows(cs) <= n
  {
    if |cs| == 0 then []
    else
      assert forall q :: 0 <= q < |cs| - 1 ==> cs[1..][q] == cs[q + 1];
      PaddedColumns(cs[0], 0, above, n - above - NRows(cs[0]))
        + DiagonalColumns(cs[1..], above + NRows(cs[0]), n)
  }

  /** The calibration `diagonal` returns (a `Calib<MirrorMode>`). */
  datatype DiagonalCalib = DiagonalCalib(
    n_mode: nat,
    c: seq<real>,
    mask: seq<bool>,
    modes: seq<Option<CalibrationMode>>,
    nCols: nat)

  lemma {:induction false} SumRowsPrefix(cs: seq<Calib>, p: nat)
    requires AllShapedCalibs(cs) && p <= |cs|
    ensures AllShapedCalibs(cs[..p]) && SumRows(cs[..p]) <= SumRows(cs)
    ensures SumCols(cs[..p]) <= SumCols(cs)
  {
    if p > 0 {
      assert cs[..p][1..] == cs[1..][..p - 1];
      assert forall q :: 0 <= q < |cs| - 1 ==> cs[1..][q] == cs[q + 1];
      SumRowsPrefix(cs[1..], p - 1);
    }
  }

  /** `diagonal()`: the calibrations along the main diagonal of one matrix
      whose size is the sum of all their sizes. Only the first seven
      calibrations are placed (the loop zips with a 7-slot mode array):
      their masks, `n_mode`s and modes are kept, and the matrix entries of
      any further calibration stay zero. */
  function Diagonal(r: Reconstructor): (d: DiagonalCalib)
    requires AllShapedCalibs(r.calib)
    ensures |d.c| == SumRows(r.calib) * SumCols(r.calib)
    ensures d.nCols == SumCols(r.calib)
    ensures d.mask == Masks(r.calib[..Min(7, |r.calib|)])
    ensures d.n_mode == SumNMode(r.calib[..Min(7, |r.calib|)])
    ensures |d.modes| == 7
    ensures forall q :: 0 <= q < 7 ==> d.modes[q] == (if q < |r.calib| then Some(r.calib[q].mode) else None)
  {
    var cs := r.calib;
    var p := Min(7, |cs|);
    var modes := seq(7, q requires 0 <= q < 7 => if q < |cs| then Some(cs[q].mode) else None);
    DiagonalMatrixLength(cs, p);
    DiagonalCalib(SumNMode(cs[..p]), DiagonalMatrix(cs, p), Masks(cs[..p]), modes, SumCols(cs))
  }

  /** The entries of the block-diagonal matrix with the first `p`
      calibrations placed. */
  function DiagonalMatrix(cs: seq<Calib>, p: nat): seq<real>
    requires AllShapedCalibs(cs) && p <= |cs|
  {
    SumRowsPrefix(cs, p);
    var n := SumRows(cs);
    DiagonalColumns(cs[..p], 0, n) + Repeat(0.0, Times(SumCols(cs) - SumCols(cs[..p]), n))
  }

  lemma DiagonalMatrixLength(cs: seq<Calib>, p: nat)
    requires AllShapedCalibs(cs) && p <= |cs|
    ensures |DiagonalMatrix(cs, p)| == SumRows(cs) * SumCols(cs)
  {
    SumRowsPrefix(cs, p);
    DiagonalPartsLength(cs[..p], SumRows(cs), SumCols(cs));
  }

  /** The diagonal columns of the first calibrations, padded with zero
      columns up to `m`, make an `n × m` matrix. */
  lemma DiagonalPartsLength(ps: seq<Calib>, n: nat, m: nat)
    requires AllShapedCalibs(ps) && SumRows(ps) <= n && SumCols(ps) <= m
    ensures |DiagonalColumns(ps, 0, n) + Repeat(0.0, Times(m - SumCols(ps), n))| == n * m
  {
    var sc := SumCols(ps);
    DiagonalColumnsLength(ps, 0, n);
    PartsOfProduct(|DiagonalColumns(ps, 0, n)|, Times(m - sc, n), sc, m, n);
  }

  lemma PartsOfProduct(a: nat, b: nat, sc: nat, m: nat, n: nat)
    requires a == sc * n && sc <= m && b == (m - sc) * n
    ensures a + b == n * m
  {
    MulSucc2(sc, m - sc, n);
  }

  lemma MulSucc2(a: nat, b: nat, n: nat)
    ensures a * n + b * n == (a + b) * n
  {
  }

  lemma {:induction false} PaddedColumnsLength(k: Calib, j: nat, above: nat, below: nat)
    requires Shaped(k) && j <= NCols(k)
    ensures |PaddedColumns(k, j, above, below)| == (NCols(k) - j) * (above + NRows(k) + below)
    decreases NCols(k) - j
  {
    var w, m := above + NRows(k) + below, NCols(k) - j;
    if j < NCols(k) {
      PaddedColumnsStep(k, j, above, below);
      PaddedColumnsLength(k, j + 1, above, below);
      LengthStep(|PaddedColumns(k, j, above, below)|, |PaddedColumns(k, j + 1, above, below)|, w, m);
    }
  }

  lemma PaddedColumnsStep(k: Calib, j: nat, above: nat, below: nat)
    requires Shaped(k) && j < NCols(k)
    ensures |PaddedColumns(k, j, above, below)| == above + NRows(k) + below + |PaddedColumns(k, j + 1, above, below)|
  {
    var column := Repeat(0.0, above) + ColumnOf(k, j) + Repeat(0.0, below);
    assert PaddedColumns(k, j, above, below) == column + PaddedColumns(k, j + 1, above, below);
  }

  /** One more column of height `w` on top of `m - 1`. */
  lemma LengthStep(total: nat, rest: nat, w: nat, m: nat)
    requires m > 0 && total == w + rest && rest == (m - 1) * w
    ensures total == m * w
  {
  }

  lemma {:induction false} DiagonalColumnsLength(cs: seq<Calib>, above: nat, n: nat)
    requires AllShapedCalibs(cs) && above + SumRows(cs) <= n
    ensures |DiagonalColumns(cs, above, n)| == SumCols(cs) * n
  {
    if |cs| > 0 {
      assert forall q :: 0 <= q < |cs| - 1 ==> cs[1..][q] == cs[q + 1];
      PaddedColumnsLength(cs[0], 0, above, n - above - NRows(cs[0]));
      DiagonalColumnsLength(cs[1..], above + NRows(cs[0]), n);
      MulSucc2(NCols(cs[0]), SumCols(cs[1..]), n);
    }
  }

  /** The unpadded columns `j..` of a calibration are the tail of its
      column-major entries. */
  lemma {:induction false} UnpaddedColumns(k: Calib, j: nat, lo: nat)
    requires Shaped(k) && j <= NCols(k)
    requires lo == j * NRows(k) && lo <= |k.c|
    ensures PaddedColumns(k, j, 0, 0) == k.c[lo..]
    decreases NCols(k) - j
  {
    var h, n0 := NRows(k), NCols(k);
    if j < n0 {
      var hi := lo + h;
      assert hi == (j + 1) * h && hi <= |k.c| by {
        MulBound(j, n0, h);
      }
      assert PaddedColumns(k, j + 1, 0, 0) == k.c[hi..] by {
        UnpaddedColumns(k, j + 1, hi);
      }
      assert Repeat(0.0, 0) == [];
      assert PaddedColumns(k, j, 0, 0) == k.c[lo..hi] + PaddedColumns(k, j + 1, 0, 0);
      SliceJoin(k.c, lo, hi);
    } else {
      assert lo == |k.c|;
    }
  }

  /** The diagonal of a single calibration is that calibration. */
  lemma DiagonalOfOne(k: Calib)
    requires Shaped(k)
    ensures AllShapedCalibs([k])
    ensures Diagonal(FromCalib(k)).c == k.c
    ensures Diagonal(FromCalib(k)).mask == k.mask
    ensures Diagonal(FromCalib(k)).nCols == NCols(k)
  {
    var cs := [k];
    assert cs[..1] == cs && cs[1..] == [];
    assert SumRows(cs) == NRows(k) && SumCols(cs) == NCols(k);
    UnpaddedColumns(k, 0, 0);
    assert DiagonalColumns(cs, 0, NRows(k)) == PaddedColumns(k, 0, 0, 0) + DiagonalColumns([], NRows(k), NRows(k));
    assert Masks(cs) == k.mask + Masks([]);
  }

  // ---------------------------------------------------------------------
  // sub_assign
  // ---------------------------------------------------------------------

  /** `-= rhs`: each calibration matrix minus the matching matrix of `rhs`
      (same shape, given column-major; faer panics on a shape mismatch),
      and every pseudo-inverse slot emptied. */
  function SubAssign(r: Reconstructor, rhs: seq<seq<real>>): (s: Reconstructor)
    requires forall q :: 0 <= q < |r.calib| && q < |rhs| ==> |rhs[q]| == |r.calib[q].c|
    ensures |s.calib| == |r.calib| && |s.pinv| == |r.calib|
    ensures forall q :: 0 <= q < |s.pinv| ==> s.pinv[q].None?
    ensures forall q :: 0 <= q < |r.calib| ==> s.calib[q] == r.calib[q].(c := s.calib[q].c)
    ensures forall q :: 0 <= q < |r.calib| && q < |rhs| ==> s.calib[q].c == Diff(r.calib[q].c, rhs[q])
    ensures forall q :: |rhs| <= q < |r.calib| ==> s.calib[q] == r.calib[q]
  {
    var cs := seq(|r.calib|, q requires 0 <= q < |r.calib| =>
      if q < |rhs| then r.calib[q].(c := Diff(r.calib[q].c, rhs[q])) else r.calib[q]);
    New(cs)
  }

  /** Subtracting zero matrices keeps the calibrations and only drops the
      pseudo-inverses. */
  lemma SubAssignZero(r: Reconstructor)
    ensures SubAssign(r, seq(|r.calib|, q requires 0 <= q < |r.calib| => Repeat(0.0, |r.calib[q].c|))) == New(r.calib)
  {
    var rhs := seq(|r.calib|, q requires 0 <= q < |r.calib| => Repeat(0.0, |r.calib[q].c|));
    var s := SubAssign(r, rhs);
    forall q | 0 <= q < |r.calib| ensures s.calib[q] == r.calib[q] {
      assert Diff(r.calib[q].c, rhs[q]) == r.calib[q].c;
    }
    assert s.calib == r.calib;
  }
}
