/**
 The Apache Arrow data logger: a builder that registers one buffer per
 logged signal, and a logger that appends the data it reads to the
 matching buffer, keeping one sample in `decimation` and asking for a save
 every `batch_size` samples of every entry. Files, Arrow arrays and the
 record batch are left out; a save is only counted.
 */
module ArrowLogger {
  import opened Common

  /** Buffers hold at most 1 GiB (`2 << 29` bytes). */
  const MaxCapacityByte: nat := 0x4000_0000

  /** Where the data go when the logger is dropped. */
  datatype DropOption = Save(filename: Option<string>) | NoSave

  /** One registered buffer: the identifier of the logged signal, the
      number of values reserved for it and the values logged so far. */
  datatype LogBuffer = LogBuffer(id: nat, reserved: nat, items: seq<real>)

  /** `ArrowBuilder`; metadata and the file format are left out. */
  datatype ArrowBuilder = ArrowBuilder(
    n_step: nat,
    capacities: seq<nat>,
    buffers: seq<LogBuffer>,
    n_entry: nat,
    drop_option: DropOption,
    decimation: nat)

  /** `Arrow`; `batch_size` is `None` for every logger the builder makes,
      and `saves` counts the saves the logger asked for. */
  datatype Arrow = Arrow(
    n_step: nat,
    capacities: seq<nat>,
    buffers: seq<LogBuffer>,
    step: nat,
    n_entry: nat,
    drop_option: DropOption,
    decimation: nat,
    count: nat,
    batch_size: Option<nat>,
    saves: nat)

  /** `ArrowBuilder::new(n_step)`: no entry, saved to the default file, no
      decimation. */
  function NewBuilder(n_step: nat): (b: ArrowBuilder)
    ensures b.n_step == n_step && b.n_entry == 0 && b.capacities == [] && b.buffers == []
    ensures b.decimation == 1 && b.drop_option == Save(None)
  {
    ArrowBuilder(n_step, [], [], 0, Save(None), 1)
  }

  /** The number of values reserved for a buffer of `size`-value samples of
      `width`-byte values: one sample per kept step plus one, capped at
      1 GiB. */
  function Capacity(size: nat, n_step: nat, decimation: nat, width: nat): (capacity: nat)
    requires decimation > 0 && width > 0
    ensures capacity * width <= MaxCapacityByte || size * (1 + n_step / decimation) * width <= MaxCapacityByte
    ensures size * (1 + n_step / decimation) * width <= MaxCapacityByte ==> capacity == size * (1 + n_step / decimation)
    ensures size * (1 + n_step / decimation) * width > MaxCapacityByte ==>
      capacity * width <= MaxCapacityByte < (capacity + 1) * width
  {
    var wanted := size * (1 + n_step / decimation);
    if wanted * width > MaxCapacityByte then
      var capped := MaxCapacityByte / width;
      assert capped * width <= MaxCapacityByte < (capped + 1) * width by {
        DivBounds(MaxCapacityByte, width);
      }
      capped
    else wanted
  }

  /** `ArrowBuilder::entry`: one more buffer, its sample size recorded. */
  function BuilderEntry(b: ArrowBuilder, id: nat, size: nat, width: nat): (r: ArrowBuilder)
    requires b.decimation > 0 && width > 0
    ensures r.buffers == b.buffers + [LogBuffer(id, Capacity(size, b.n_step, b.decimation, width), [])]
    ensures r.capacities == b.capacities + [size] && r.n_entry == b.n_entry + 1
    ensures r.n_step == b.n_step && r.decimation == b.decimation && r.drop_option == b.drop_option
  {
    b.(buffers := b.buffers + [LogBuffer(id, Capacity(size, b.n_step, b.decimation, width), [])],
       capacities := b.capacities + [size],
       n_entry := b.n_entry + 1)
  }

  /** `ArrowBuilder::build`: a logger at step 0 with nothing counted. */
  function Build(b: ArrowBuilder): (a: Arrow)
    ensures a.step == 0 && a.count == 0 && a.saves == 0 && a.batch_size.None?
    ensures a.n_step == b.n_step && a.n_entry == b.n_entry && a.decimation == b.decimation
    ensures a.buffers == b.buffers && a.capacities == b.capacities && a.drop_option == b.drop_option
  {
    Arrow(b.n_step, b.capacities, b.buffers, 0, b.n_entry, b.drop_option, b.decimation, 0, None, 0)
  }

  /** `Arrow::entry`: the same registration, on a built logger. */
  function Entry(a: Arrow, id: nat, size: nat, width: nat): (r: Arrow)
    requires a.decimation > 0 && width > 0
    ensures r.buffers == a.buffers + [LogBuffer(id, Capacity(size, a.n_step, a.decimation, width), [])]
    ensures r.capacities == a.capacities + [size] && r.n_entry == a.n_entry + 1
    ensures r == a.(buffers := r.buffers, capacities := r.capacities, n_entry := r.n_entry)
  {
    a.(buffers := a.buffers + [LogBuffer(id, Capacity(size, a.n_step, a.decimation, width), [])],
       capacities := a.capacities + [size],
       n_entry := a.n_entry + 1)
  }

  /** Registering on the builder and then building is registering on the
      built logger. */
  lemma EntryCommutesWithBuild(b: ArrowBuilder, id: nat, size: nat, width: nat)
    requires b.decimation > 0 && width > 0
    ensures Build(BuilderEntry(b, id, size, width)) == Entry(Build(b), id, size, width)
  {
  }

  /** `size()`: the number of steps logged per entry (a division by zero
      when nothing is registered). */
  function Size(a: Arrow): (r: nat)
    requires a.n_entry > 0
    ensures r * a.n_entry <= a.step < (r + 1) * a.n_entry
  {
    var q := a.step / a.n_entry;
    DivBounds(a.step, a.n_entry);
    q
  }

  /** `pct_complete()` */
  function PctComplete(a: Arrow): (r: nat)
    requires a.n_step > 0 && a.n_entry > 0
    ensures r * a.n_step <= Size(a) < (r + 1) * a.n_step
  {
    var q := a.step / a.n_step / a.n_entry;
    var size := Size(a);
    assert size == a.step / a.n_entry;
    DivSwap(a.step, a.n_step, a.n_entry);
    assert q == size / a.n_step;
    DivBounds(size, a.n_step);
    q
  }

  /** The index of the first buffer logging `id` (`find_map` on a
      downcast). */
  function FindBuffer(buffers: seq<LogBuffer>, id: nat): (r: Option<nat>)
    ensures r.Some? ==>
      (r.value < |buffers| && buffers[r.value].id == id && forall j :: 0 <= j < r.value ==> buffers[j].id != id)
    ensures r.None? ==> forall j :: 0 <= j < |buffers| ==> buffers[j].id != id
  {
    if |buffers| == 0 then None
    else if buffers[0].id == id then Some(0)
    else match FindBuffer(buffers[1..], id)
      case None => None
      case Some(k) => Some(k + 1)
  }

  /** The round a step belongs to, counted from 1: `1 + floor(step /
      n_entry)`. With no entry the float division gives `NaN` at step 0
      (cast to 0) and overflows `usize` afterwards. */
  function Round(step: nat, n_entry: nat): (r: nat)
    requires n_entry > 0 || step == 0
    ensures r >= 1
  {
    if n_entry == 0 then 1 else 1 + step / n_entry
  }

  /** Whether the datum read at `step` is kept. */
  predicate Kept(step: nat, n_entry: nat, decimation: nat)
    requires (n_entry > 0 || step == 0) && decimation > 0
  {
    Round(step, n_entry) % decimation == 0
  }

  /** What `read` demands: a non-zero decimation, a defined round and, when
      the datum is appended under a batch size, a non-zero batch. */
  predicate CanRead(a: Arrow, id: nat) {
    && a.decimation > 0
    && (a.n_entry > 0 || a.step == 0)
    && (a.batch_size.Some? && FindBuffer(a.buffers, id).Some? && Kept(a.step, a.n_entry, a.decimation)
        ==> a.n_entry * a.batch_size.value > 0)
  }

  /** `read`: the step always advances; a kept datum is appended to the
      first buffer logging `id`, if any, which counts it and may ask for a
      save. */
  function Read(a: Arrow, id: nat, data: seq<real>): (r: Arrow)
    requires CanRead(a, id)
    ensures r.step == a.step + 1
    ensures var appended := Kept(a.step, a.n_entry, a.decimation) && FindBuffer(a.buffers, id).Some?;
      && (r.count == if appended then a.count + 1 else a.count)
      && (r.saves == if appended && a.batch_size.Some? && r.count % (a.n_entry * a.batch_size.value) == 0
                     then a.saves + 1 else a.saves)
    ensures r == a.(step := r.step, count := r.count, saves := r.saves, buffers := r.buffers)
    ensures |r.buffers| == |a.buffers|
    ensures forall j :: 0 <= j < |a.buffers| ==>
      r.buffers[j] == if Kept(a.step, a.n_entry, a.decimation) && FindBuffer(a.buffers, id) == Some(j)
                      then a.buffers[j].(items := a.buffers[j].items + data) else a.buffers[j]
  {
    var a' := a.(step := a.step + 1);
    if !Kept(a.step, a.n_entry, a.decimation) then a'
    else match FindBuffer(a.buffers, id)
      case None => a'
      case Some(k) =>
        var b := a.buffers[k];
        var count := a.count + 1;
        var save := a.batch_size.Some? && count % (a.n_entry * a.batch_size.value) == 0;
        a'.(buffers := a.buffers[k := b.(items := b.items + data)],
            count := count,
            saves := if save then a.saves + 1 else a.saves)
  }

  /** The values logged for `id`: those of its first buffer. */
  function Logged(a: Arrow, id: nat): seq<real> {
    match FindBuffer(a.buffers, id)
    case None => []
    case Some(k) => a.buffers[k].items
  }

  /** A run of reads, each one an identifier and its datum; no batch size
      is set, as for every logger the builder makes. */
  function ReadAll(a: Arrow, ins: seq<(nat, seq<real>)>): (r: Arrow)
    requires a.decimation > 0 && a.n_entry > 0 && a.batch_size.None?
    ensures r.decimation == a.decimation && r.n_entry == a.n_entry && r.batch_size.None?
    ensures r.step == a.step + |ins|
    ensures |r.buffers| == |a.buffers| && forall j :: 0 <= j < |a.buffers| ==> r.buffers[j].id == a.buffers[j].id
    decreases |ins|
  {
    if |ins| == 0 then a else ReadAll(Read(a, ins[0].0, ins[0].1), ins[1..])
  }

  /** The data a run of reads starting at `step` keeps for `id`, by the
      decimation rule alone. */
  function KeptData(step: nat, n_entry: nat, decimation: nat, ins: seq<(nat, seq<real>)>, id: nat): seq<real>
    requires n_entry > 0 && decimation > 0
    decreases |ins|
  {
    if |ins| == 0 then []
    else
      var here := if ins[0].0 == id && Kept(step, n_entry, decimation) then ins[0].1 else [];
      here + KeptData(step + 1, n_entry, decimation, ins[1..], id)
  }

  /** The number of reads a run keeps for registered identifiers. */
  function KeptCount(a: Arrow, step: nat, ins: seq<(nat, seq<real>)>): nat
    requires a.n_entry > 0 && a.decimation > 0
    decreases |ins|
  {
    if |ins| == 0 then 0
    else
      var here := if FindBuffer(a.buffers, ins[0].0).Some? && Kept(step, a.n_entry, a.decimation) then 1 else 0;
      here + KeptCount(a, step + 1, ins[1..])
  }

  lemma FindBufferById(a: seq<LogBuffer>, b: seq<LogBuffer>, id: nat)
    requires |a| == |b| && forall j :: 0 <= j < |a| ==> a[j].id == b[j].id
    ensures FindBuffer(a, id) == FindBuffer(b, id)
  {
    if FindBuffer(a, id).Some? {
      assert FindBuffer(b, id).Some?;
    }
  }

  /** A registered signal's log is what was logged before plus, in order,
      the data of its kept reads; the counter counts the kept reads of
      registered signals. */
  lemma ReadAllLogs(a: Arrow, ins: seq<(nat, seq<real>)>, id: nat)
    requires a.decimation > 0 && a.n_entry > 0 && a.batch_size.None?
    ensures FindBuffer(a.buffers, id).Some? ==>
      Logged(ReadAll(a, ins), id) == Logged(a, id) + KeptData(a.step, a.n_entry, a.decimation, ins, id)
    ensures ReadAll(a, ins).count == a.count + KeptCount(a, a.step, ins)
  {
    if FindBuffer(a.buffers, id).Some? {
      ReadAllLogged(a, ins, id);
    }
    ReadAllCount(a, ins);
  }

  lemma {:induction false} ReadAllLogged(a: Arrow, ins: seq<(nat, seq<real>)>, id: nat)
    requires a.decimation > 0 && a.n_entry > 0 && a.batch_size.None?
    requires FindBuffer(a.buffers, id).Some?
    ensures Logged(ReadAll(a, ins), id) == Logged(a, id) + KeptData(a.step, a.n_entry, a.decimation, ins, id)
    decreases |ins|
  {
    if |ins| == 0 {
      assert Logged(a, id) + [] == Logged(a, id);
    } else {
      var a1, here := ReadLogged(a, ins, id);
      var before, rest := Logged(a, id), KeptData(a.step + 1, a.n_entry, a.decimation, ins[1..], id);
      assert Logged(ReadAll(a, ins), id) == (before + here) + rest by {
        ReadAllLogged(a1, ins[1..], id);
      }
      assert KeptData(a.step, a.n_entry, a.decimation, ins, id) == here + rest by {
        KeptDataStep(a.step, a.n_entry, a.decimation, ins, id);
      }
      AppendAssoc(before, here, rest);
    }
  }

  lemma KeptDataStep(step: nat, n_entry: nat, decimation: nat, ins: seq<(nat, seq<real>)>, id: nat)
    requires n_entry > 0 && decimation > 0 && |ins| > 0
    ensures KeptData(step, n_entry, decimation, ins, id)
      == (if ins[0].0 == id && Kept(step, n_entry, decimation) then ins[0].1 else [])
         + KeptData(step + 1, n_entry, decimation, ins[1..], id)
  {
  }

  /** The first read of a run appends its datum to the log of `id` when it
      is kept and meant for `id`. */
  lemma ReadLogged(a: Arrow, ins: seq<(nat, seq<real>)>, id: nat) returns (a1: Arrow, here: seq<real>)
    requires a.decimation > 0 && a.n_entry > 0 && a.batch_size.None?
    requires FindBuffer(a.buffers, id).Some? && |ins| > 0
    ensures here == if ins[0].0 == id && Kept(a.step, a.n_entry, a.decimation) then ins[0].1 else []
    ensures a1.step == a.step + 1 && a1.n_entry == a.n_entry && a1.decimation == a.decimation
    ensures a1.batch_size.None? && FindBuffer(a1.buffers, id).Some?
    ensures Logged(a1, id) == Logged(a, id) + here
    ensures ReadAll(a, ins) == ReadAll(a1, ins[1..])
  {
    here := if ins[0].0 == id && Kept(a.step, a.n_entry, a.decimation) then ins[0].1 else [];
    a1 := Read(a, ins[0].0, ins[0].1);
    FindBufferById(a.buffers, a1.buffers, id);
    assert Logged(a, id) + [] == Logged(a, id);
  }

  lemma {:induction false} ReadAllCount(a: Arrow, ins: seq<(nat, seq<real>)>)
    requires a.decimation > 0 && a.n_entry > 0 && a.batch_size.None?
    ensures ReadAll(a, ins).count == a.count + KeptCount(a, a.step, ins)
    decreases |ins|
  {
    if |ins| > 0 {
      var a1 := Read(a, ins[0].0, ins[0].1);
      FindBufferById(a.buffers, a1.buffers, ins[0].0);
      ReadAllCount(a1, ins[1..]);
      KeptCountShift(a, a1, a.step + 1, ins[1..]);
    }
  }

  /** The count of kept reads depends on the buffers only through their
      identifiers. */
  lemma {:induction false} KeptCountShift(a: Arrow, b: Arrow, step: nat, ins: seq<(nat, seq<real>)>)
    requires a.n_entry > 0 && a.decimation > 0 && b.n_entry == a.n_entry && b.decimation == a.decimation
    requires |a.buffers| == |b.buffers| && forall j :: 0 <= j < |a.buffers| ==> a.buffers[j].id == b.buffers[j].id
    ensures KeptCount(a, step, ins) == KeptCount(b, step, ins)
    decreases |ins|
  {
    if |ins| > 0 {
      FindBufferById(a.buffers, b.buffers, ins[0].0);
      KeptCountShift(a, b, step + 1, ins[1..]);
    }
  }

  /** The number of rounds among `1..=rounds` that a decimation by `d`
      keeps. */
  function KeptRounds(rounds: nat, d: nat): nat
    requires d > 0
  {
    if rounds == 0 then 0 else KeptRounds(rounds - 1, d) + (if rounds % d == 0 then 1 else 0)
  }

  /** Decimating by `d` keeps `rounds / d` of the rounds, which the buffer
      reservation `1 + n_step / decimation` always accommodates. */
  lemma {:induction false} KeptRoundsCount(rounds: nat, d: nat)
    requires d > 0
    ensures KeptRounds(rounds, d) == rounds / d
  {
    if rounds > 0 {
      KeptRoundsCount(rounds - 1, d);
      DivStep(rounds - 1, d);
    }
  }

  lemma DivStep(n: nat, d: nat)
    requires d > 0
    ensures (n + 1) / d == n / d + (if (n + 1) % d == 0 then 1 else 0)
  {
    var q, m := n / d, n % d;
    assert n == q * d + m && 0 <= m < d;
    if m + 1 == d {
      assert n + 1 == (q + 1) * d + 0;
      DivModUnique(n + 1, d, q + 1, 0);
    } else {
      assert n + 1 == q * d + (m + 1);
      DivModUnique(n + 1, d, q, m + 1);
    }
  }

  /** Dividing by `a` then `b` is dividing by `b` then `a`. */
  lemma DivSwap(n: nat, a: nat, b: nat)
    requires a > 0 && b > 0
    ensures n / a / b == n / b / a
  {
    var q := n / b / a;
    DivBounds(n, b);
    DivBounds(n / b, a);
    DivDiv(n, b, a);
    DivDiv(n, a, b);
  }

  /** Dividing by `a` then `b` is dividing by `a * b`. */
  lemma DivDiv(n: nat, a: nat, b: nat)
    requires a > 0 && b > 0
    ensures n / a / b == n / (a * b)
  {
    var q1, r1 := n / a, n % a;
    var q2, r2 := q1 / b, q1 % b;
    assert n == q1 * a + r1 && q1 == q2 * b + r2;
    Regroup(q2, r2, a, b, r1);
    RemainderBound(r2, r1, a, b);
    MulAtLeast(b, a);
    DivModUnique(n, a * b, q2, r2 * a + r1);
  }

  lemma Regroup(q2: int, r2: int, a: int, b: int, r1: int)
    ensures (q2 * b + r2) * a + r1 == q2 * (a * b) + (r2 * a + r1)
  {
    assert (q2 * b + r2) * a == q2 * b * a + r2 * a;
    assert q2 * b * a == q2 * (a * b);
  }

  lemma RemainderBound(r2: nat, r1: nat, a: nat, b: nat)
    requires r2 < b && r1 < a
    ensures r2 * a + r1 < a * b
  {
    assert r2 * a <= (b - 1) * a by {
      MulLeq(r2, b - 1, a);
    }
    assert (b - 1) * a == a * b - a;
  }

  lemma MulLeq(x: nat, y: nat, a: nat)
    requires x <= y
    ensures x * a <= y * a
  {
    assert y * a == x * a + (y - x) * a;
  }

  /** `into_list` offsets: `0, n, 2n, …` for `n_step + 1` entries, as
      `i32` (the range panics past `i32::MAX`; `step_by(0)` panics). */
  function Offsets(n_step: nat, n: nat): (r: seq<int>)
    requires n > 0 && n_step * n < 0x8000_0000
    ensures |r| == n_step + 1 && r[0] == 0 && r[n_step] == n_step * n
    ensures forall k :: 0 <= k < n_step ==> r[k + 1] - r[k] == n
  {
    var r := seq(n_step + 1, k requires 0 <= k <= n_step => k * n);
    assert forall k :: 0 <= k < n_step ==> r[k + 1] - r[k] == n by {
      forall k | 0 <= k < n_step ensures r[k + 1] - r[k] == n {
        assert (k + 1) * n == k * n + n;
      }
    }
    r
  }

  /** The list items a buffer is cut into by a run of offsets. */
  function ListItems<T>(buffer: seq<T>, offsets: seq<int>): (r: seq<seq<T>>)
    requires |offsets| > 0 && offsets[0] == 0 && offsets[|offsets| - 1] == |buffer|
    requires forall k :: 0 <= k < |offsets| - 1 ==> offsets[k] <= offsets[k + 1]
    ensures |r| == |offsets| - 1
    decreases |offsets|
  {
    if |offsets| == 1 then []
    else
      var n := offsets[1];
      assert 0 <= n <= |buffer| by {
        MonotoneBound(offsets, 1);
      }
      [buffer[..n]] + ListItems(buffer[n..], seq(|offsets| - 1, k requires 0 <= k < |offsets| - 1 => offsets[k + 1] - n))
  }

  lemma {:induction false} MonotoneBound(offsets: seq<int>, i: nat)
    requires i < |offsets|
    requires forall k :: 0 <= k < |offsets| - 1 ==> offsets[k] <= offsets[k + 1]
    ensures offsets[i] <= offsets[|offsets| - 1]
    ensures offsets[0] <= offsets[i]
    decreases |offsets| - i
  {
    if i < |offsets| - 1 {
      MonotoneBound(offsets, i + 1);
    }
    if i > 0 {
      MonotoneBoundDown(offsets, i);
    }
  }

  lemma {:induction false} MonotoneBoundDown(offsets: seq<int>, i: nat)
    requires i < |offsets|
    requires forall k :: 0 <= k < |offsets| - 1 ==> offsets[k] <= offsets[k + 1]
    ensures offsets[0] <= offsets[i]
  {
    if i > 0 {
      MonotoneBoundDown(offsets, i - 1);
    }
  }

  /** The list items, laid end to end, are the buffer: nothing is lost or
      repeated. */
  lemma {:induction false} ListItemsPartition<T>(buffer: seq<T>, offsets: seq<int>)
    requires |offsets| > 0 && offsets[0] == 0 && offsets[|offsets| - 1] == |buffer|
    requires forall k :: 0 <= k < |offsets| - 1 ==> offsets[k] <= offsets[k + 1]
    ensures |ListItems(buffer, offsets)| == |offsets| - 1
    ensures Flatten(ListItems(buffer, offsets)) == buffer
    decreases |offsets|
  {
    if |offsets| > 1 {
      var n := offsets[1];
      MonotoneBound(offsets, 1);
      var shifted := seq(|offsets| - 1, k requires 0 <= k < |offsets| - 1 => offsets[k + 1] - n);
      ListItemsPartition(buffer[n..], shifted);
      var items := ListItems(buffer, offsets);
      assert items == [buffer[..n]] + ListItems(buffer[n..], shifted);
      assert items[1..] == ListItems(buffer[n..], shifted);
      assert buffer[..n] + buffer[n..] == buffer;
    }
  }

  /** List item `k` is the stretch of the buffer between offsets `k` and
      `k + 1`. */
  lemma {:induction false} ListItemsAt<T>(buffer: seq<T>, offsets: seq<int>, k: nat)
    requires |offsets| > 0 && offsets[0] == 0 && offsets[|offsets| - 1] == |buffer|
    requires forall k :: 0 <= k < |offsets| - 1 ==> offsets[k] <= offsets[k + 1]
    requires k < |offsets| - 1
    ensures 0 <= offsets[k] <= offsets[k + 1] <= |buffer|
    ensures ListItems(buffer, offsets)[k] == buffer[offsets[k]..offsets[k + 1]]
    decreases k
  {
    MonotoneBound(offsets, k + 1);
    MonotoneBoundDown(offsets, k);
    if k > 0 {
      var n := offsets[1];
      MonotoneBound(offsets, 1);
      var shifted := seq(|offsets| - 1, j requires 0 <= j < |offsets| - 1 => offsets[j + 1] - n);
      ListItemsAt(buffer[n..], shifted, k - 1);
      assert ListItems(buffer, offsets)[k] == ListItems(buffer[n..], shifted)[k - 1];
      assert buffer[n..][shifted[k - 1]..shifted[k]] == buffer[offsets[k]..offsets[k + 1]];
    }
  }

  /** Cut by `Offsets(n_step, n)`, a buffer of `n_step` samples of `n`
      values gives back its samples, one list item per step. */
  lemma OffsetsCutSamples<T>(buffer: seq<T>, n_step: nat, n: nat)
    requires n > 0 && n_step * n < 0x8000_0000 && |buffer| == n_step * n
    ensures |ListItems(buffer, Offsets(n_step, n))| == n_step
    ensures Flatten(ListItems(buffer, Offsets(n_step, n))) == buffer
  {
    var o := Offsets(n_step, n);
    forall k | 0 <= k < |o| - 1 ensures o[k] <= o[k + 1] {
      assert o[k + 1] - o[k] == n;
    }
    ListItemsPartition(buffer, o);
  }

  /** Characters matched by the regular expression class `\w`. */
  predicate IsWord(c: char) {
    ('a' <= c <= 'z') || ('A' <= c <= 'Z') || ('0' <= c <= '9') || c == '_'
  }

  predicate IsDigit(c: char) {
    '0' <= c <= '9'
  }

  /** The longest run of word characters ending `s`. */
  function WordSuffix(s: string): (w: string)
    ensures |w| <= |s| && w == s[|s| - |w|..]
    ensures forall k :: 0 <= k < |w| ==> IsWord(w[k])
    ensures |w| < |s| ==> !IsWord(s[|s| - |w| - 1])
  {
    if |s| == 0 || !IsWord(s[|s| - 1]) then []
    else
      var w := WordSuffix(s[..|s| - 1]);
      w + [s[|s| - 1]]
  }

  /** The longest run of digits ending `s`. */
  function DigitSuffix(s: string): (d: string)
    ensures |d| <= |s| && d == s[|s| - |d|..]
    ensures forall k :: 0 <= k < |d| ==> IsDigit(d[k])
    ensures |d| < |s| ==> !IsDigit(s[|s| - |d| - 1])
  {
    if |s| == 0 || !IsDigit(s[|s| - 1]) then []
    else
      var d := DigitSuffix(s[..|s| - 1]);
      d + [s[|s| - 1]]
  }

  /** `who()`: the regular expression `(\w+)(?:<(\d+)>)?$` on the type
      name; `Name<k>` at the end renders as `Name#k`, a trailing word as
      itself, and a name with neither is returned whole. */
  function Who(name: string): (r: string)
    ensures |r| <= |name|
    ensures r != name ==> 0 < |r| && forall k :: 0 <= k < |r| ==> IsWord(r[k]) || r[k] == '#'
  {
    if |name| > 0 && name[|name| - 1] == '>' then
      var inner := name[..|name| - 1];
      var digits := DigitSuffix(inner);
      var before := inner[..|inner| - |digits|];
      if |digits| > 0 && |before| > 0 && before[|before| - 1] == '<' then
        var word := WordSuffix(before[..|before| - 1]);
        if |word| > 0 then word + "#" + digits else name
      else name
    else
      var word := WordSuffix(name);
      if |word| > 0 then word else name
  }

  lemma {:induction false} WordSuffixOf(p: string, w: string)
    requires forall k :: 0 <= k < |w| ==> IsWord(w[k])
    requires |p| == 0 || !IsWord(p[|p| - 1])
    ensures WordSuffix(p + w) == w
    decreases |w|
  {
    if |w| > 0 {
      var w' := w[..|w| - 1];
      assert WordSuffix(p + w) == WordSuffix(p + w') + [w[|w| - 1]] by {
        DropLast(p, w);
      }
      WordSuffixOf(p, w');
    } else {
      assert p + w == p;
    }
  }

  lemma {:induction false} DigitSuffixOf(p: string, d: string)
    requires forall k :: 0 <= k < |d| ==> IsDigit(d[k])
    requires |p| == 0 || !IsDigit(p[|p| - 1])
    ensures DigitSuffix(p + d) == d
    decreases |d|
  {
    if |d| > 0 {
      var d' := d[..|d| - 1];
      assert DigitSuffix(p + d) == DigitSuffix(p + d') + [d[|d| - 1]] by {
        DropLast(p, d);
      }
      DigitSuffixOf(p, d');
    } else {
      assert p + d == p;
    }
  }

  /** Dropping the last character of `p + w`, with `w` not empty. */
  lemma DropLast(p: string, w: string)
    requires |w| > 0
    ensures (p + w)[..|p + w| - 1] == p + w[..|w| - 1] && (p + w)[|p + w| - 1] == w[|w| - 1]
  {
  }

  /** A type name ending in a word `w` renders as `w`. */
  lemma WhoPlain(p: string, w: string)
    requires |w| > 0 && forall k :: 0 <= k < |w| ==> IsWord(w[k])
    requires |p| == 0 || !IsWord(p[|p| - 1])
    ensures Who(p + w) == w
  {
    WordSuffixOf(p, w);
  }

  /** A type name ending in `w<d>`, with `d` a number, renders as `w#d`. */
  lemma WhoIndexed(p: string, w: string, d: string)
    requires |w| > 0 && forall k :: 0 <= k < |w| ==> IsWord(w[k])
    requires |d| > 0 && forall k :: 0 <= k < |d| ==> IsDigit(d[k])
    requires |p| == 0 || !IsWord(p[|p| - 1])
    ensures Who(p + w + "<" + d + ">") == w + "#" + d
  {
    var name := p + w + "<" + d + ">";
    var head := p + w + "<";
    assert name == head + d + ">";
    var inner := name[..|name| - 1];
    assert inner == head + d;
    DigitSuffixOf(head, d);
    assert inner[..|inner| - |d|] == head;
    assert head[..|head| - 1] == p + w;
    WordSuffixOf(p, w);
    WhoIndexedUnfold(name, head, d);
  }

  lemma WhoIndexedUnfold(name: string, head: string, d: string)
    requires |d| > 0 && |head| > 0 && head[|head| - 1] == '<'
    requires name == head + d + ">" && DigitSuffix(head + d) == d
    requires |WordSuffix(head[..|head| - 1])| > 0
    ensures Who(name) == WordSuffix(head[..|head| - 1]) + "#" + d
  {
    assert name[..|name| - 1] == head + d;
    assert (head + d)[..|head + d| - |d|] == head;
  }

  /** A type name ending in neither a word nor `<number>` is returned
      unchanged. */
  lemma WhoNoMatch(name: string)
    requires |name| > 0 && !IsWord(name[|name| - 1]) && name[|name| - 1] != '>'
    ensures Who(name) == name
  {
  }

  /** A signal `Data<3>` and a signal `Data`, both in a module path. */
  lemma WhoExample()
    ensures Who("gmt::Data<3>") == "Data#3"
    ensures Who("gmt::Data") == "Data"
  {
    WhoIndexedExample();
    WhoPlainExample();
  }

  lemma WhoIndexedExample()
    ensures Who("gmt::Data<3>") == "Data#3"
  {
    WhoIndexed("gmt::", "Data", "3");
    assert "gmt::" + "Data" + "<" + "3" + ">" == "gmt::Data<3>";
  }

  lemma WhoPlainExample()
    ensures Who("gmt::Data") == "Data"
  {
    WhoPlain("gmt::", "Data");
    assert "gmt::" + "Data" == "gmt::Data";
  }
}
