/**
 Two clients of the core crate: `Concat`, which accumulates every datum it
 reads and hands the whole lot over at each write, and `Source`, which
 hands out a vector `n` items at a time until it is empty.
 */
module CoreClients {
  import opened Common

  /** `Concat<T>`: the items read since the last write. */
  datatype Concat<T> = Concat(items: seq<T>)

  /** `Default`: nothing accumulated. */
  function EmptyConcat<T>(): (c: Concat<T>)
    ensures |c.items| == 0
  {
    Concat([])
  }

  /** `Read`: a clone of the datum is appended. */
  function ConcatRead<T>(c: Concat<T>, x: T): (r: Concat<T>)
    ensures |r.items| == |c.items| + 1 && r.items[..|c.items|] == c.items && r.items[|c.items|] == x
  {
    Concat(c.items + [x])
  }

  /** `Write`: everything accumulated, leaving the buffer empty
      (`mem::take`). */
  function ConcatWrite<T>(c: Concat<T>): (r: (Concat<T>, Option<seq<T>>))
    ensures r.0.items == [] && r.1 == Some(c.items)
  {
    (Concat([]), Some(c.items))
  }

  /** One call made on a `Concat` client. */
  datatype Call<T> = Read(x: T) | Write

  /** The outputs of a sequence of calls, and the final state. */
  function ConcatRun<T>(c: Concat<T>, calls: seq<Call<T>>): (r: (Concat<T>, seq<seq<T>>))
    decreases |calls|
  {
    if |calls| == 0 then (c, [])
    else match calls[0]
      case Read(x) => ConcatRun(ConcatRead(c, x), calls[1..])
      case Write =>
        var (c', out) := ConcatWrite(c);
        var (final, outs) := ConcatRun(c', calls[1..]);
        (final, [out.value] + outs)
  }

  /** The items read, in order. */
  function ReadItems<T>(calls: seq<Call<T>>): seq<T> {
    if |calls| == 0 then [] else (if calls[0].Read? then [calls[0].x] else []) + ReadItems(calls[1..])
  }

  /** Nothing is lost or repeated: the written vectors, one after the
      other, followed by what is still buffered, are exactly the items
      buffered at the start and then every item read, in order. */
  lemma {:induction false} ConcatLosesNothing<T>(c: Concat<T>, calls: seq<Call<T>>)
    ensures Flatten(ConcatRun(c, calls).1) + ConcatRun(c, calls).0.items == c.items + ReadItems(calls)
    decreases |calls|
  {
    if |calls| == 0 {
      assert c.items + [] == c.items;
    } else {
      match calls[0]
      case Read(x) =>
        ConcatLosesNothing(ConcatRead(c, x), calls[1..]);
        assert (c.items + [x]) + ReadItems(calls[1..]) == c.items + ([x] + ReadItems(calls[1..]));
      case Write =>
        var (c', out) := ConcatWrite(c);
        ConcatLosesNothing(c', calls[1..]);
        var (final, outs) := ConcatRun(c', calls[1..]);
        assert Flatten([c.items] + outs) == c.items + Flatten(outs) by {
          assert ([c.items] + outs)[1..] == outs;
        }
        assert [] + ReadItems(calls[1..]) == ReadItems(calls[1..]);
    }
  }

  /** `Source<T>`: the items left and the number handed out per write. */
  datatype Source<T> = Source(n: nat, data: seq<T>)

  /** `Write` panics when the items left are fewer than `n`
      (`drain(..n)` past the end). */
  predicate CanWrite<T>(s: Source<T>) {
    |s.data| == 0 || s.n <= |s.data|
  }

  /** `Write`: nothing once the data are exhausted, otherwise the next `n`
      items, removed from the source. */
  function SourceWrite<T>(s: Source<T>): (r: (Source<T>, Option<seq<T>>))
    requires CanWrite(s)
    ensures |s.data| == 0 <==> r.1.None?
    ensures r.1.None? ==> r.0 == s
    ensures r.1.Some? ==> r.0.n == s.n && r.1.value + r.0.data == s.data && |r.1.value| == s.n
  {
    if |s.data| == 0 then (s, None) else (Source(s.n, s.data[s.n..]), Some(s.data[..s.n]))
  }

  /** `len` items can be handed out `n` at a time without a panic. */
  predicate WholeChunks(len: nat, n: nat)
    requires n > 0
    decreases len
  {
    len == 0 || (n <= len && WholeChunks(len - n, n))
  }

  /** The outputs of `k` writes on a source whose length is a whole number
      of `n`-item chunks (so that no write panics). */
  function SourceRun<T>(s: Source<T>, k: nat): (outs: seq<Option<seq<T>>>)
    requires s.n > 0 && WholeChunks(|s.data|, s.n)
    ensures |outs| == k
    decreases k
  {
    if k == 0 then []
    else
      var (s', o) := SourceWrite(s);
      [o] + SourceRun(s', k - 1)
  }

  lemma {:induction false} ChunksAreWhole(chunks: nat, n: nat)
    requires n > 0
    ensures WholeChunks(Times(chunks, n), n)
  {
    if chunks > 0 {
      ChunksAreWhole(chunks - 1, n);
      TimesSucc(chunks - 1, n);
    }
  }

  /** An exhausted source writes nothing, however often it is asked. */
  lemma {:induction false} ExhaustedSourceRun<T>(s: Source<T>, k: nat)
    requires s.n > 0 && s.data == []
    ensures WholeChunks(|s.data|, s.n)
    ensures forall j :: 0 <= j < k ==> SourceRun(s, k)[j].None?
  {
    if k > 0 {
      ExhaustedSourceRun(s, k - 1);
      assert SourceRun(s, k)[1..] == SourceRun(s, k - 1);
    }
  }

  /** The values of the `Some` entries, in order. */
  function Somes<T>(os: seq<Option<T>>): (r: seq<T>)
    ensures |r| <= |os|
  {
    if |os| == 0 then [] else (if os[0].Some? then [os[0].value] else []) + Somes(os[1..])
  }

  /** A source of `chunks · n` items hands out `chunks` writes of `n` items
      each, which laid end to end are the data, and then nothing. */
  lemma {:induction false} SourceHandsOutAll<T>(s: Source<T>, chunks: nat, extra: nat)
    requires s.n > 0 && |s.data| == Times(chunks, s.n)
    ensures WholeChunks(|s.data|, s.n)
    ensures var outs := SourceRun(s, chunks + extra);
      && (forall j :: 0 <= j < chunks ==> outs[j].Some? && |outs[j].value| == s.n)
      && (forall j :: chunks <= j < chunks + extra ==> outs[j].None?)
      && Flatten(Somes(outs)) == s.data
    decreases chunks
  {
    ChunksAreWhole(chunks, s.n);
    var outs := SourceRun(s, chunks + extra);
    if chunks == 0 {
      ExhaustedSourceRun(s, extra);
      NoSomes(outs);
    } else {
      var s' := Source(s.n, s.data[s.n..]);
      TimesSucc(chunks - 1, s.n);
      SourceHandsOutAll(s', chunks - 1, extra);
      var rest := SourceRun(s', chunks - 1 + extra);
      assert outs == [Some(s.data[..s.n])] + rest;
      assert outs[1..] == rest;
      assert Somes(outs) == [s.data[..s.n]] + Somes(rest);
      assert Flatten([s.data[..s.n]] + Somes(rest)) == s.data[..s.n] + Flatten(Somes(rest)) by {
        assert ([s.data[..s.n]] + Somes(rest))[1..] == Somes(rest);
      }
      assert s.data[..s.n] + s.data[s.n..] == s.data;
      forall j | 0 < j < chunks + extra ensures outs[j] == rest[j - 1] {
      }
    }
  }

  lemma {:induction false} NoSomes<T>(os: seq<Option<T>>)
    requires forall j :: 0 <= j < |os| ==> os[j].None?
    ensures Somes(os) == []
  {
    if |os| > 0 {
      NoSomes(os[1..]);
    }
  }

  /** With `n == 0` a non-empty source never empties: every write hands out
      an empty vector. */
  lemma SourceZeroNeverEnds<T>(data: seq<T>)
    requires |data| > 0
    ensures SourceWrite(Source(0, data)) == (Source(0, data), Some([]))
  {
    assert data[0..] == data;
  }
}
