/**
 Shared vocabulary of the model: optional values and results, and the
 handful of sequence shapes that recur across the clients — counting the
 set entries of a boolean mask, keeping the masked entries of a vector,
 sums, and concatenation of a sequence of vectors.
 */
module Common {

  /** Rust's `Option`. */
  datatype Option<+T> = None | Some(value: T) {
    /** `unwrap_or` */
    function UnwrapOr(default: T): T {
      if Some? then value else default
    }
  }

  /** Rust's `Result`. */
  datatype Result<+T, +E> = Ok(value: T) | Err(error: E)

  /** `usize::MAX` on a 64-bit target */
  const UsizeMax: nat := 0xFFFF_FFFF_FFFF_FFFF

  function Min(a: int, b: int): int {
    if a <= b then a else b
  }

  function Max(a: int, b: int): int {
    if a <= b then b else a
  }

  /** Number of `true` entries of a mask (`filter(|x| *x).count()`). */
  function CountTrue(mask: seq<bool>): (r: nat)
    ensures r <= |mask|
  {
    if |mask| == 0 then 0 else (if mask[0] then 1 else 0) + CountTrue(mask[1..])
  }

  /** `v.iter().zip(mask).filter_map(|(v, m)| m.then_some(v))`: the entries of
      `v` whose mask entry is set, in order, stopping at the shorter input. */
  function Select<T>(v: seq<T>, mask: seq<bool>): (r: seq<T>)
    ensures |r| <= |v| && |r| <= |mask|
    ensures forall x :: x in r ==> x in v
  {
    if |v| == 0 || |mask| == 0 then []
    else (if mask[0] then [v[0]] else []) + Select(v[1..], mask[1..])
  }

  /** What the mask decides: every value under a set flag is selected, a
      full mask keeps everything, an empty one nothing, and a mask as long
      as the values keeps as many as it has set flags. */
  lemma {:induction false} SelectFlags<T>(v: seq<T>, mask: seq<bool>)
    ensures forall k :: 0 <= k < |v| && k < |mask| && mask[k] ==> v[k] in Select(v, mask)
    ensures |v| <= |mask| && (forall k :: 0 <= k < |mask| ==> mask[k]) ==> Select(v, mask) == v
    ensures (forall k :: 0 <= k < |mask| ==> !mask[k]) ==> Select(v, mask) == []
    ensures |v| == |mask| ==> |Select(v, mask)| == CountTrue(mask)
    decreases |v|
  {
    if |v| > 0 && |mask| > 0 {
      SelectFlags(v[1..], mask[1..]);
      assert forall k :: 1 <= k < |v| && k < |mask| ==> v[k] == v[1..][k - 1] && mask[k] == mask[1..][k - 1];
    }
  }

  /** `iter().filter(p)`: the entries `p` keeps, in order. */
  function Filter<T(!new)>(xs: seq<T>, p: T -> bool): (r: seq<T>)
    ensures |r| <= |xs|
    ensures forall k :: 0 <= k < |r| ==> p(r[k])
    ensures forall x :: x in r <==> x in xs && p(x)
  {
    if |xs| == 0 then []
    else (if p(xs[0]) then [xs[0]] else []) + Filter(xs[1..], p)
  }

  /** Elementwise AND of two masks, truncated to the shorter (`zip` + `&&`). */
  function And(a: seq<bool>, b: seq<bool>): (r: seq<bool>)
    ensures |r| == Min(|a|, |b|)
    ensures forall k :: 0 <= k < |r| ==> r[k] == (a[k] && b[k])
  {
    seq(Min(|a|, |b|), k requires 0 <= k < Min(|a|, |b|) => a[k] && b[k])
  }

  function Sum(s: seq<int>): int {
    if |s| == 0 then 0 else s[0] + Sum(s[1..])
  }

  function SumReal(s: seq<real>): real {
    if |s| == 0 then 0.0 else s[0] + SumReal(s[1..])
  }

  /** Concatenation of a sequence of vectors (`flatten`/`concat`). */
  function Flatten<T>(ss: seq<seq<T>>): seq<T> {
    if |ss| == 0 then [] else ss[0] + Flatten(ss[1..])
  }

  /** `vec![x; n]` */
  function Repeat<T>(x: T, n: nat): (r: seq<T>)
    ensures |r| == n && forall k :: 0 <= k < n ==> r[k] == x
  {
    seq(n, _ => x)
  }

  /** Elementwise difference truncated to the shorter input (`zip` + `-`). */
  function Diff(a: seq<real>, b: seq<real>): (r: seq<real>)
    ensures |r| == Min(|a|, |b|)
    ensures forall k :: 0 <= k < |r| ==> r[k] == a[k] - b[k]
  {
    seq(Min(|a|, |b|), k requires 0 <= k < Min(|a|, |b|) => a[k] - b[k])
  }

  lemma {:induction false} CountTrueAppend(a: seq<bool>, b: seq<bool>)
    ensures CountTrue(a + b) == CountTrue(a) + CountTrue(b)
  {
    if |a| > 0 {
      assert (a + b)[0] == a[0] && (a + b)[1..] == a[1..] + b;
      CountTrueAppend(a[1..], b);
    } else {
      assert a + b == b;
    }
  }

  /** When the vector is at least as long as the mask, exactly one entry is
      kept per set mask entry. */
  lemma {:induction false} SelectLength<T>(v: seq<T>, mask: seq<bool>)
    requires |v| >= |mask|
    ensures |Select(v, mask)| == CountTrue(mask)
  {
    if |mask| > 0 {
      SelectLength(v[1..], mask[1..]);
    }
  }

  lemma {:induction false} SelectAppend<T>(v: seq<T>, w: seq<T>, m: seq<bool>, n: seq<bool>)
    requires |v| == |m|
    ensures Select(v + w, m + n) == Select(v, m) + Select(w, n)
  {
    if |v| > 0 {
      assert (v + w)[1..] == v[1..] + w;
      assert (m + n)[1..] == m[1..] + n;
      SelectAppend(v[1..], w, m[1..], n);
    } else {
      assert v + w == w && m + n == n;
    }
  }

  lemma {:induction false} SumAppend(a: seq<int>, b: seq<int>)
    ensures Sum(a + b) == Sum(a) + Sum(b)
  {
    if |a| > 0 {
      assert (a + b)[1..] == a[1..] + b;
      SumAppend(a[1..], b);
    } else {
      assert a + b == b;
    }
  }

  lemma {:induction false} FlattenAppend<T>(a: seq<seq<T>>, b: seq<seq<T>>)
    ensures Flatten(a + b) == Flatten(a) + Flatten(b)
  {
    if |a| > 0 {
      assert (a + b)[1..] == a[1..] + b;
      FlattenAppend(a[1..], b);
    } else {
      assert a + b == b;
    }
  }

  lemma {:induction false} SumRealAppend(a: seq<real>, b: seq<real>)
    ensures SumReal(a + b) == SumReal(a) + SumReal(b)
  {
    if |a| > 0 {
      assert (a + b)[1..] == a[1..] + b;
      SumRealAppend(a[1..], b);
    } else {
      assert a + b == b;
    }
  }

  /** Concatenating vectors of one length `w`. */
  lemma {:induction false} FlattenLength<T>(ss: seq<seq<T>>, w: nat)
    requires forall i :: 0 <= i < |ss| ==> |ss[i]| == w
    ensures |Flatten(ss)| == |ss| * w
  {
    if |ss| > 0 {
      FlattenLength(ss[1..], w);
      assert |ss| * w == w + (|ss| - 1) * w;
    }
  }

  /** Writes `values` into the masked positions of `p`, in order, while
      both last (`zip` of the masked slots with the values). */
  function ScatterInto(p: seq<real>, mask: seq<bool>, values: seq<real>): (r: seq<real>)
    ensures |r| == |p|
    ensures forall i :: 0 <= i < |p| && !(i < |mask| && mask[i]) ==> r[i] == p[i]
  {
    if |p| == 0 || |mask| == 0 then p
    else if mask[0] && |values| > 0 then [values[0]] + ScatterInto(p[1..], mask[1..], values[1..])
    else [p[0]] + ScatterInto(p[1..], mask[1..], values)
  }

  /** Scattering exactly as many values as there are masked slots puts
      them all there: reading the masked slots back gives the values. */
  lemma {:induction false} ScatterIntoSelect(p: seq<real>, mask: seq<bool>, values: seq<real>)
    requires |p| >= |mask| && |values| == CountTrue(mask)
    ensures Select(ScatterInto(p, mask, values), mask) == values
  {
    if |mask| > 0 {
      ScatterIntoSelect(p[1..], mask[1..], if mask[0] then values[1..] else values);
    }
  }

  lemma AppendAssoc<T>(a: seq<T>, b: seq<T>, c: seq<T>)
    ensures (a + b) + c == a + (b + c)
  {
  }

  /** A suffix is the slice up to any later point followed by the rest. */
  lemma SliceJoin<T>(s: seq<T>, a: nat, b: nat)
    requires a <= b <= |s|
    ensures s[a..] == s[a..b] + s[b..]
  {
  }

  /** A prefix is a shorter prefix followed by the slice between them. */
  lemma PrefixJoin<T>(s: seq<T>, a: nat, b: nat)
    requires a <= b <= |s|
    ensures s[..a] + s[a..b] == s[..b]
  {
  }

  /** `flat_map(|k| vec![a[k], b[k]])`: the pairs of `a` and `b` laid
      out one after the other. */
  function Interleave<T>(a: seq<T>, b: seq<T>): (r: seq<T>)
    requires |a| == |b|
    ensures |r| == 2 * |a|
    ensures forall k :: 0 <= k < |a| ==> r[2 * k] == a[k] && r[2 * k + 1] == b[k]
  {
    seq(2 * |a|, j requires 0 <= j < 2 * |a| => if j % 2 == 0 then a[j / 2] else b[j / 2])
  }

  /** The first entry of each pair of `x` (`chunks(2).map(|x| x[0])`). */
  function Evens<T>(x: seq<T>): (r: seq<T>)
    ensures |r| == |x| / 2
    ensures forall k :: 0 <= k < |r| ==> r[k] == x[2 * k]
  {
    seq(|x| / 2, k requires 0 <= k < |x| / 2 => x[2 * k])
  }

  /** The second entry of each pair of `x` (`chunks(2).map(|x| x[1])`). */
  function Odds<T>(x: seq<T>): (r: seq<T>)
    ensures |r| == |x| / 2
    ensures forall k :: 0 <= k < |r| ==> r[k] == x[2 * k + 1]
  {
    seq(|x| / 2, k requires 0 <= k < |x| / 2 => x[2 * k + 1])
  }

  /** Splitting the pairs apart undoes laying them out, and the other way
      round for a sequence of whole pairs. */
  lemma InterleaveSplit<T>(a: seq<T>, b: seq<T>)
    requires |a| == |b|
    ensures Evens(Interleave(a, b)) == a && Odds(Interleave(a, b)) == b
  {
  }

  lemma SplitInterleave<T>(x: seq<T>)
    requires |x| % 2 == 0
    ensures Interleave(Evens(x), Odds(x)) == x
  {
    var h := |x| / 2;
    assert |x| == 2 * h;
    SplitInterleaveHalves(x, h);
  }

  lemma SplitInterleaveHalves<T>(x: seq<T>, h: nat)
    requires |x| == 2 * h
    ensures Interleave(Evens(x), Odds(x)) == x
  {
    var r := Interleave(Evens(x), Odds(x));
    forall j | 0 <= j < |x| ensures r[j] == x[j] {
      var k := Half(j);
      if j == 2 * k {
        SplitInterleaveEven(x, h, k);
      } else {
        SplitInterleaveOdd(x, h, k);
      }
    }
  }

  /** Every index is the first or the second of its pair. */
  lemma Half(j: nat) returns (k: nat)
    ensures j == 2 * k || j == 2 * k + 1
  {
    k := j / 2;
  }

  lemma SplitInterleaveEven<T>(x: seq<T>, h: nat, k: nat)
    requires |x| == 2 * h && k < h
    ensures Interleave(Evens(x), Odds(x))[2 * k] == x[2 * k]
  {
    var e, o := Evens(x), Odds(x);
    assert e[k] == x[2 * k];
    assert Interleave(e, o)[2 * k] == e[k];
  }

  lemma SplitInterleaveOdd<T>(x: seq<T>, h: nat, k: nat)
    requires |x| == 2 * h && k < h
    ensures Interleave(Evens(x), Odds(x))[2 * k + 1] == x[2 * k + 1]
  {
    var e, o := Evens(x), Odds(x);
    assert o[k] == x[2 * k + 1];
    assert Interleave(e, o)[2 * k + 1] == o[k];
  }

  /** Elementwise negation. */
  function Negate(a: seq<real>): (r: seq<real>)
    ensures |r| == |a| && forall k :: 0 <= k < |a| ==> r[k] == -a[k]
  {
    seq(|a|, k requires 0 <= k < |a| => -a[k])
  }

  /** All `Some`, or `None` (`collect` into `Option<Vec<_>>`). */
  function CollectAll<T>(xs: seq<Option<T>>): (r: Option<seq<T>>)
    ensures r.Some? <==> forall i :: 0 <= i < |xs| ==> xs[i].Some?
    ensures r.Some? ==> |r.value| == |xs| && forall i :: 0 <= i < |xs| ==> r.value[i] == xs[i].value
  {
    if |xs| == 0 then Some([])
    else
      var rest := CollectAll(xs[1..]);
      if xs[0].None? || rest.None? then
        assert rest.None? ==> exists i :: 1 <= i < |xs| && xs[i].None? by {
          if rest.None? {
            var j :| 0 <= j < |xs[1..]| && xs[1..][j].None?;
            assert xs[j + 1].None?;
          }
        }
        None
      else Some([xs[0].value] + rest.value)
  }

  /** A product as a `nat`, kept behind a function so that the solver does
      not reason about the multiplication unless asked to. */
  function Times(a: nat, b: nat): nat {
    a * b
  }

  /** `x.chunks(n)`: consecutive pieces of `n` items, the last one possibly
      shorter (`chunks(0)` panics). */
  function Chunks<T>(x: seq<T>, n: nat): (r: seq<seq<T>>)
    requires n > 0
    ensures forall k :: 0 <= k < |r| ==> 0 < |r[k]| <= n
    ensures forall k :: 0 <= k < |r| - 1 ==> |r[k]| == n
    ensures |x| == 0 <==> |r| == 0
    decreases |x|
  {
    if |x| == 0 then []
    else if |x| <= n then [x]
    else
      var rest := Chunks(x[n..], n);
      assert forall k :: 0 < k < |rest| + 1 ==> ([x[..n]] + rest)[k] == rest[k - 1];
      [x[..n]] + rest
  }

  /** The chunks, laid end to end, are the input. */
  lemma {:induction false} ChunksFlatten<T>(x: seq<T>, n: nat)
    requires n > 0
    ensures Flatten(Chunks(x, n)) == x
    decreases |x|
  {
    if |x| > n {
      ChunksFlatten(x[n..], n);
      var rest := Chunks(x[n..], n);
      assert ([x[..n]] + rest)[1..] == rest;
      assert x[..n] + x[n..] == x;
    } else if |x| > 0 {
      assert [x][1..] == [];
      assert x + [] == x;
    }
  }

  /** `chunks(n).nth(i)` exists exactly when `i · n` items do not exhaust
      the input. */
  lemma {:induction false} ChunksCount<T>(x: seq<T>, n: nat, i: nat)
    requires n > 0
    ensures i < |Chunks(x, n)| <==> Times(i, n) < |x|
    decreases |x|
  {
    if |x| > n && i > 0 {
      ChunksCount(x[n..], n, i - 1);
      TimesSucc(i - 1, n);
    } else if |x| > n {
      assert Times(0, n) == 0;
    } else if i > 0 {
      TimesSucc(i - 1, n);
    } else {
      assert Times(0, n) == 0;
    }
  }

  /** The chunks of `k` copies of an `n`-item piece are those copies. */
  lemma {:induction false} ChunksOfRepeat<T>(c: seq<T>, k: nat)
    requires |c| > 0
    ensures Chunks(Flatten(Repeat(c, k)), |c|) == Repeat(c, k)
  {
    if k > 0 {
      ChunksOfRepeat(c, k - 1);
      var r := Repeat(c, k);
      assert r == [c] + Repeat(c, k - 1);
      assert r[1..] == Repeat(c, k - 1);
      var x := Flatten(r);
      assert x == c + Flatten(Repeat(c, k - 1));
      assert x[..|c|] == c && x[|c|..] == Flatten(Repeat(c, k - 1));
      if k == 1 {
        assert Flatten(Repeat(c, 0)) == [];
        assert x == c;
      }
    }
  }

  /** Pieces of `n` items each, laid end to end, are cut back into the
      same pieces. */
  lemma {:induction false} ChunksOfFlatten<T>(cs: seq<seq<T>>, n: nat)
    requires n > 0 && forall k :: 0 <= k < |cs| ==> |cs[k]| == n
    ensures |Flatten(cs)| == Times(|cs|, n)
    ensures Chunks(Flatten(cs), n) == cs
  {
    if |cs| > 0 {
      ChunksOfFlatten(cs[1..], n);
      TimesSucc(|cs| - 1, n);
      var x := Flatten(cs);
      assert x == cs[0] + Flatten(cs[1..]);
      assert x[..n] == cs[0] && x[n..] == Flatten(cs[1..]);
      if |cs| == 1 {
        assert Flatten(cs[1..]) == [];
        assert x == cs[0];
        assert cs == [cs[0]];
      } else {
        assert cs == [cs[0]] + cs[1..];
      }
    }
  }

  /** A whole number of `n`-item pieces is cut into pieces of exactly `n`
      items. */
  lemma {:induction false} WholeChunksOf<T>(x: seq<T>, n: nat)
    requires n > 0 && |x| % n == 0
    ensures forall k :: 0 <= k < |Chunks(x, n)| ==> |Chunks(x, n)[k]| == n
    ensures |x| == Times(|Chunks(x, n)|, n)
    decreases |x|
  {
    if |x| > n {
      var q := |x| / n;
      assert |x| == q * n;
      DivBounds(|x|, n);
      assert |x| - n == (q - 1) * n;
      DivModUnique(|x| - n, n, q - 1, 0);
      WholeChunksOf(x[n..], n);
      TimesSucc(|Chunks(x[n..], n)|, n);
    } else if |x| > 0 {
      assert |x| == n by {
        if |x| < n {
          DivModUnique(|x|, n, 0, |x|);
        }
      }
      assert Times(1, n) == n;
    } else {
      assert Times(0, n) == 0;
    }
  }

  lemma TimesSucc(a: nat, n: nat)
    ensures Times(a + 1, n) == Times(a, n) + n
  {
    assert (a + 1) * n == a * n + n;
  }

  /** Euclidean division brackets its dividend. */
  lemma DivBounds(a: nat, b: nat)
    requires b > 0
    ensures (a / b) * b <= a < (a / b + 1) * b
  {
    assert a == (a / b) * b + a % b;
    assert (a / b + 1) * b == (a / b) * b + b;
  }

  /** Quotient and remainder are determined by `n == q · d + m`. */
  lemma DivModUnique(n: int, d: int, q: int, m: int)
    requires d > 0 && 0 <= m < d && n == q * d + m
    ensures n / d == q && n % d == m
  {
    var q0, m0 := n / d, n % d;
    assert n == q0 * d + m0;
    assert (q - q0) * d == m0 - m by {
      assert q * d - q0 * d == (q - q0) * d;
    }
    if q > q0 {
      MulAtLeast(q - q0, d);
    } else if q < q0 {
      MulAtLeast(q0 - q, d);
    }
  }

  lemma MulAtLeast(k: int, d: int)
    requires k >= 1 && d > 0
    ensures k * d >= d
  {
    assert k * d == (k - 1) * d + d;
    assert (k - 1) * d >= 0;
  }
}
