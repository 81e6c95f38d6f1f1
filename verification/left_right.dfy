/**
 The `LeftRight` client: a splitter cuts a vector into a left and a right
 part, either once at index `i` or inside every `n`-long chunk; a merger
 built from the splitter reassembles the two parts.
 */
module LeftRight {
  import opened Common

  /** Configuration shared by the splitting and the merging client:
      the split index and, for chunked splitting, the chunk size. */
  datatype Config = Config(i: nat, n: Option<nat>)

  /** `split_at(i)` */
  function SplitAt(i: nat): (c: Config)
    ensures c.i == i && c.n.None?
  {
    Config(i, None)
  }

  /** `split_chunks_at(n, i)` */
  function SplitChunksAt(n: nat, i: nat): (c: Config)
    ensures c.i == i && c.n == Some(n)
  {
    Config(i, Some(n))
  }

  /** A merger made from a splitter (`From<&LeftRight<U, Split>>`) and
      `split_merge_chunks_at` both carry the same `i` and `n`. */
  function MergerOf(split: Config): (merge: Config)
    ensures merge.i == split.i && merge.n == split.n
  {
    Config(split.i, split.n)
  }

  /** Every `n`-chunk of `data` is long enough to be sliced at `i`:
      `chunks(n)` panics for `n == 0`, and `chunk[..i]` for a short chunk. */
  predicate ChunkSplittable(len: nat, n: nat, i: nat) {
    0 < n && i <= n && LastChunkAtLeast(len, n, i)
  }

  /** The last of the `n`-chunks of a `len`-long vector (if any) has at
      least `i` entries. */
  predicate LastChunkAtLeast(len: nat, n: nat, i: nat)
    requires 0 < n
    decreases len
  {
    if len <= n then len == 0 || i <= len else LastChunkAtLeast(len - n, n, i)
  }

  /** The last of the `n`-chunks of a `len`-long vector (if any) has more
      than `i` entries. */
  predicate LastChunkLongerThan(len: nat, n: nat, i: nat)
    requires 0 < n
    decreases len
  {
    if len <= n then len == 0 || i < len else LastChunkLongerThan(len - n, n, i)
  }

  /** Left part of each chunk, concatenated. */
  function ChunkedLeft<T>(data: seq<T>, n: nat, i: nat): (r: seq<T>)
    requires ChunkSplittable(|data|, n, i)
    decreases |data|
  {
    if |data| == 0 then []
    else if |data| <= n then data[..i]
    else data[..i] + ChunkedLeft(data[n..], n, i)
  }

  /** Right part of each chunk, concatenated. */
  function ChunkedRight<T>(data: seq<T>, n: nat, i: nat): (r: seq<T>)
    requires ChunkSplittable(|data|, n, i)
    decreases |data|
  {
    if |data| == 0 then []
    else if |data| <= n then data[i..]
    else data[i..n] + ChunkedRight(data[n..], n, i)
  }

  /** Number of chunks `chunks(n)` yields. */
  function NumChunks(len: nat, n: nat): nat
    requires n > 0
    decreases len
  {
    if len == 0 then 0 else if len <= n then 1 else 1 + NumChunks(len - n, n)
  }

  predicate Splittable(c: Config, len: nat) {
    match c.n
    case None => c.i <= len
    case Some(n) => ChunkSplittable(len, n, c.i)
  }

  /** `Write<Left<U>>` of the splitter. */
  function WriteLeft<T>(c: Config, data: seq<T>): (left: seq<T>)
    requires Splittable(c, |data|)
    ensures c.n.None? ==> left == data[..c.i]
    ensures c.n.Some? ==> |left| == c.i * NumChunks(|data|, c.n.value)
  {
    match c.n
    case None => data[..c.i]
    case Some(n) => ChunkedLeftLength(data, n, c.i); ChunkedLeft(data, n, c.i)
  }

  /** `Write<Right<U>>` of the splitter. */
  function WriteRight<T>(c: Config, data: seq<T>): (right: seq<T>)
    requires Splittable(c, |data|)
    ensures c.n.None? ==> right == data[c.i..]
    ensures |WriteLeft(c, data)| + |right| == |data|
  {
    match c.n
    case None => data[c.i..]
    case Some(n) => ChunkedLengths(data, n, c.i); ChunkedRight(data, n, c.i)
  }

  /** `left.chunks(i).zip(right.chunks(m))`, each pair concatenated; `zip`
      stops as soon as either side runs out of chunks. */
  function ChunkedMerge<T>(left: seq<T>, right: seq<T>, i: nat, m: nat): (r: seq<T>)
    requires 0 < i && 0 < m
    ensures |r| <= |left| + |right|
    decreases |left|
  {
    if |left| == 0 || |right| == 0 then []
    else (left[..Min(i, |left|)] + right[..Min(m, |right|)]
          + ChunkedMerge(left[Min(i, |left|)..], right[Min(m, |right|)..], i, m))
  }

  /** `Write<V>` of the merger: plain concatenation, or chunk interleaving
      (`n - i` must be positive, or `chunks(0)` panics, and so must `i`). */
  function Merge<T>(c: Config, left: seq<T>, right: seq<T>): (r: seq<T>)
    requires c.n.Some? ==> 0 < c.i < c.n.value
    ensures c.n.None? ==> |r| == |left| + |right| && r[..|left|] == left && r[|left|..] == right
  {
    match c.n
    case None => left + right
    case Some(n) => ChunkedMerge(left, right, c.i, n - c.i)
  }

  lemma {:induction false} ChunkedLeftLength<T>(data: seq<T>, n: nat, i: nat)
    requires ChunkSplittable(|data|, n, i)
    ensures |ChunkedLeft(data, n, i)| == i * NumChunks(|data|, n)
    decreases |data|
  {
    if |data| == 0 {
    } else if |data| <= n {
    } else {
      ChunkedLeftLength(data[n..], n, i);
    }
  }

  lemma {:induction false} LongerThanIsAtLeast(len: nat, n: nat, i: nat)
    requires 0 < n && LastChunkLongerThan(len, n, i)
    ensures LastChunkAtLeast(len, n, i)
    decreases len
  {
    if len > n {
      LongerThanIsAtLeast(len - n, n, i);
    }
  }

  lemma {:induction false} ChunkedLengths<T>(data: seq<T>, n: nat, i: nat)
    requires ChunkSplittable(|data|, n, i)
    ensures |ChunkedLeft(data, n, i)| + |ChunkedRight(data, n, i)| == |data|
    decreases |data|
  {
    if |data| > n {
      ChunkedLengths(data[n..], n, i);
    }
  }

  /** Content of the chunked left part: entry `j` of chunk `k` of the left
      part is entry `j` of chunk `k` of the data. */
  lemma {:induction false} ChunkedLeftContent<T>(data: seq<T>, n: nat, i: nat, k: nat, j: nat)
    requires ChunkSplittable(|data|, n, i)
    requires j < i && k * n + j < |data|
    ensures k * i + j < |ChunkedLeft(data, n, i)|
    ensures ChunkedLeft(data, n, i)[k * i + j] == data[k * n + j]
    decreases k
  {
    if k == 0 {
      assert k * n == 0 && k * i == 0;
      assert |data| > 0;
    } else {
      var a, b := ChunkOffsets(k, n, i, j, j);
      var l, r := FullChunk(data, n, i);
      ChunkedLeftContent(data[n..], n, i, k - 1, j);
      AppendIndex(data[..i], l, a);
    }
  }

  /** Content of the chunked right part: entry `j` of chunk `k` of the right
      part is entry `i + j` of chunk `k` of the data. */
  lemma {:induction false} ChunkedRightContent<T>(data: seq<T>, n: nat, i: nat, k: nat, j: nat)
    requires ChunkSplittable(|data|, n, i)
    requires i + j < n && k * n + i + j < |data|
    ensures k * (n - i) + j < |ChunkedRight(data, n, i)|
    ensures ChunkedRight(data, n, i)[k * (n - i) + j] == data[k * n + i + j]
    decreases k
  {
    if k == 0 {
      assert k * n == 0 && k * (n - i) == 0;
      assert |data| > 0;
    } else {
      var a, b := ChunkOffsets(k, n, n - i, j, i + j);
      var l, r := FullChunk(data, n, i);
      ChunkedRightContent(data[n..], n, i, k - 1, j);
      AppendIndex(data[i..n], r, a);
    }
  }

  /** Entry `j` of chunk `k` of a side of width `w`, and entry `d` of chunk
      `k` of the data, are at `a` and `b` past the first chunk. */
  lemma ChunkOffsets(k: nat, n: nat, w: nat, j: nat, d: nat) returns (a: nat, b: nat)
    requires k > 0
    ensures a == (k - 1) * w + j && a + w == k * w + j
    ensures b == (k - 1) * n + d && b + n == k * n + d
  {
    a, b := (k - 1) * w + j, (k - 1) * n + d;
  }

  lemma AppendIndex<T>(x: seq<T>, y: seq<T>, a: nat)
    requires a < |y|
    ensures (x + y)[|x| + a] == y[a]
  {
  }

  /** Merging what a chunked splitter wrote gives the data back, unless the
      data ends with a partial chunk of exactly `i` entries (see
      `MergeDropsShortTail`). */
  lemma {:induction false} ChunkedRoundTrip<T>(data: seq<T>, n: nat, i: nat)
    requires 0 < i < n
    requires LastChunkLongerThan(|data|, n, i)
    ensures LastChunkAtLeast(|data|, n, i)
    ensures ChunkedMerge(ChunkedLeft(data, n, i), ChunkedRight(data, n, i), i, n - i) == data
    decreases |data|
  {
    LongerThanIsAtLeast(|data|, n, i);
    if |data| == 0 {
    } else if |data| <= n {
      MergeLastChunk(data[..i], data[i..], i, n - i);
      assert data[..i] + data[i..] == data;
    } else {
      ChunkedRoundTrip(data[n..], n, i);
      RoundTripStep(data, n, i);
    }
  }

  /** The round trip goes through when it does past the first chunk. */
  lemma RoundTripStep<T>(data: seq<T>, n: nat, i: nat)
    requires 0 < i < n < |data| && ChunkSplittable(|data|, n, i)
    requires ChunkedMerge(ChunkedLeft(data[n..], n, i), ChunkedRight(data[n..], n, i), i, n - i) == data[n..]
    ensures ChunkedMerge(ChunkedLeft(data, n, i), ChunkedRight(data, n, i), i, n - i) == data
  {
    var a, b, rest := data[..i], data[i..n], data[n..];
    var l, r := FullChunk(data, n, i);
    assert ChunkedMerge(a + l, b + r, i, n - i) == a + b + rest by {
      MergeFullChunk(a, l, b, r, i, n - i);
    }
    assert data == a + b + rest by {
      SliceJoin(data, i, n);
    }
  }

  /** A full chunk leads the data: its two parts lead the two sides. */
  lemma FullChunk<T>(data: seq<T>, n: nat, i: nat) returns (l: seq<T>, r: seq<T>)
    requires ChunkSplittable(|data|, n, i) && n < |data|
    ensures ChunkSplittable(|data[n..]|, n, i)
    ensures l == ChunkedLeft(data[n..], n, i) && r == ChunkedRight(data[n..], n, i)
    ensures ChunkedLeft(data, n, i) == data[..i] + l
    ensures ChunkedRight(data, n, i) == data[i..n] + r
  {
    l, r := ChunkedLeft(data[n..], n, i), ChunkedRight(data[n..], n, i);
  }

  lemma MergeLastChunk<T>(left: seq<T>, right: seq<T>, i: nat, m: nat)
    requires |left| == i > 0 && 0 < |right| <= m
    ensures ChunkedMerge(left, right, i, m) == left + right
  {
    assert left[i..] == [] && right[|right|..] == [];
    assert left[..i] == left && right[..|right|] == right;
  }

  lemma MergeFullChunk<T>(a: seq<T>, l: seq<T>, b: seq<T>, r: seq<T>, i: nat, m: nat)
    requires |a| == i > 0 && |b| == m > 0
    ensures ChunkedMerge(a + l, b + r, i, m) == a + b + ChunkedMerge(l, r, i, m)
  {
    assert (a + l)[..i] == a && (a + l)[i..] == l;
    assert (b + r)[..m] == b && (b + r)[m..] == r;
  }

  /** The merged vector is the data split by a splitter and merged by the
      merger made from it. */
  lemma SplitMergeRoundTrip<T>(c: Config, data: seq<T>)
    requires c.n.None? ==> c.i <= |data|
    requires c.n.Some? ==> 0 < c.i < c.n.value && LastChunkLongerThan(|data|, c.n.value, c.i)
    ensures Splittable(c, |data|)
    ensures Merge(MergerOf(c), WriteLeft(c, data), WriteRight(c, data)) == data
  {
    match c.n
    case None =>
      assert data[..c.i] + data[c.i..] == data;
    case Some(n) =>
      ChunkedRoundTrip(data, n, c.i);
      assert Splittable(c, |data|);
  }

  /** Zip truncation: with a trailing partial chunk of exactly `i` entries
      the right part has no chunk to pair it with, and the merge drops it. */
  lemma MergeDropsShortTail()
    ensures var c := SplitChunksAt(3, 1);
      var data := [1, 2, 3, 4];
      WriteLeft(c, data) == [1, 4] && WriteRight(c, data) == [2, 3]
      && Merge(MergerOf(c), WriteLeft(c, data), WriteRight(c, data)) == [1, 2, 3]
  {
    var data := [1, 2, 3, 4];
    assert data[3..] == [4];
    assert ChunkedLeft(data, 3, 1) == [1] + ChunkedLeft([4], 3, 1);
    assert ChunkedRight(data, 3, 1) == [2, 3] + ChunkedRight([4], 3, 1);
    assert ChunkedMerge([1, 4], [2, 3], 1, 2) == [1] + [2, 3] + ChunkedMerge([4], [], 1, 2);
  }

  /** First documented example: `[1, 2, 3, 4, 5]` split at 2. */
  lemma PlainExample()
    ensures WriteLeft(SplitAt(2), [1, 2, 3, 4, 5]) == [1, 2]
    ensures WriteRight(SplitAt(2), [1, 2, 3, 4, 5]) == [3, 4, 5]
    ensures Merge(MergerOf(SplitAt(2)), [1, 2], [3, 4, 5]) == [1, 2, 3, 4, 5]
  {
  }

  /** Second documented example: `[1, 2, 3]` repeated 4 times, chunks of 3
      split at 1. */
  lemma ChunkedExample()
    ensures Splittable(SplitChunksAt(3, 1), 12)
    ensures var data := [1, 2, 3, 1, 2, 3, 1, 2, 3, 1, 2, 3];
      WriteLeft(SplitChunksAt(3, 1), data) == [1, 1, 1, 1]
      && WriteRight(SplitChunksAt(3, 1), data) == [2, 3, 2, 3, 2, 3, 2, 3]
      && Merge(MergerOf(SplitChunksAt(3, 1)), [1, 1, 1, 1], [2, 3, 2, 3, 2, 3, 2, 3]) == data
  {
    var data := [1, 2, 3, 1, 2, 3, 1, 2, 3, 1, 2, 3];
    assert LastChunkLongerThan(12, 3, 1) by {
      assert LastChunkLongerThan(3, 3, 1);
      assert LastChunkLongerThan(6, 3, 1);
      assert LastChunkLongerThan(9, 3, 1);
    }
    SplitMergeRoundTrip(SplitChunksAt(3, 1), data);
    ExampleData(data);
    ExampleLeft(data);
    ExampleRight(data);
    FlattenRepeat4([1]);
    FlattenRepeat4([2, 3]);
  }

  /** A whole chunk in front of splittable data leads both sides. */
  lemma {:induction false} ChunkCons<T>(chunk: seq<T>, rest: seq<T>, n: nat, i: nat)
    requires |chunk| == n && 0 < |rest| && ChunkSplittable(|rest|, n, i)
    ensures ChunkSplittable(|chunk + rest|, n, i)
    ensures ChunkedLeft(chunk + rest, n, i) == chunk[..i] + ChunkedLeft(rest, n, i)
    ensures ChunkedRight(chunk + rest, n, i) == chunk[i..] + ChunkedRight(rest, n, i)
  {
    var d := chunk + rest;
    assert d[..i] == chunk[..i] && d[i..n] == chunk[i..] && d[n..] == rest;
  }

  /** `k` copies of one chunk split into `k` copies of each of its sides. */
  lemma {:induction false} ChunkedRepeat<T>(c: seq<T>, k: nat, i: nat)
    requires i <= |c| && 0 < |c|
    ensures ChunkSplittable(|Flatten(Repeat(c, k))|, |c|, i)
    ensures ChunkedLeft(Flatten(Repeat(c, k)), |c|, i) == Flatten(Repeat(c[..i], k))
    ensures ChunkedRight(Flatten(Repeat(c, k)), |c|, i) == Flatten(Repeat(c[i..], k))
  {
    if k > 0 {
      ChunkedRepeat(c, k - 1, i);
      FlattenRepeatStep(c, k);
      FlattenRepeatStep(c[..i], k);
      FlattenRepeatStep(c[i..], k);
      if k == 1 {
        assert Flatten(Repeat(c, 0)) == [];
        assert Flatten(Repeat(c, 1)) == c;
        assert c[..i] + [] == c[..i] && c[i..] + [] == c[i..];
      } else {
        FlattenLength(Repeat(c, k - 1), |c|);
        ChunkCons(c, Flatten(Repeat(c, k - 1)), |c|, i);
      }
    }
  }

  lemma FlattenRepeatStep<T>(c: seq<T>, k: nat)
    requires k > 0
    ensures Flatten(Repeat(c, k)) == c + Flatten(Repeat(c, k - 1))
  {
    assert Repeat(c, k)[1..] == Repeat(c, k - 1);
  }

  lemma ExampleLeft(data: seq<int>)
    requires data == Flatten(Repeat([1, 2, 3], 4))
    ensures ChunkSplittable(|data|, 3, 1) && ChunkedLeft(data, 3, 1) == Flatten(Repeat([1], 4))
  {
    ChunkedRepeat([1, 2, 3], 4, 1);
    assert [1, 2, 3][..1] == [1];
  }

  lemma ExampleRight(data: seq<int>)
    requires data == Flatten(Repeat([1, 2, 3], 4))
    ensures ChunkSplittable(|data|, 3, 1) && ChunkedRight(data, 3, 1) == Flatten(Repeat([2, 3], 4))
  {
    ChunkedRepeat([1, 2, 3], 4, 1);
    assert [1, 2, 3][1..] == [2, 3];
  }

  lemma ExampleData(data: seq<int>)
    requires data == [1, 2, 3, 1, 2, 3, 1, 2, 3, 1, 2, 3]
    ensures data == Flatten(Repeat([1, 2, 3], 4))
  {
    FlattenRepeat4([1, 2, 3]);
  }

  lemma FlattenRepeat4<T>(c: seq<T>)
    ensures Flatten(Repeat(c, 4)) == c + c + c + c
  {
    FlattenRepeatStep(c, 4);
    FlattenRepeatStep(c, 3);
    FlattenRepeatStep(c, 2);
    FlattenRepeatStep(c, 1);
    assert Flatten(Repeat(c, 0)) == [];
  }
}
