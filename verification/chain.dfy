/**
 A flow of the actor-script language: a chain `a[x] -> b[y] -> c` of
 clients, each optionally followed by the output it sends on. Clients are
 shared between the flows of a model, so they live in an arena and the
 chain refers to them by index; `dedup` makes equal clients one shared
 client, and `match_rates` fills the rates the script left at zero with
 the flow rate and inserts a rate transition on every link whose two ends
 run at different rates.
 */
module Chain {
  import opened Common

  /** A client of the script: its variable name, its input and output rates
      (0 when the script gives none), and whether it is a sub-system. */
  datatype Client = Client(name: string, inputRate: nat, outputRate: nat, subSystem: bool)

  /** The output of a client in a flow; `transition` is the rate transition
      `(input rate, output rate)` the link needs, if any. */
  datatype Output = Output(name: string, transition: Option<(nat, nat)>, scope: bool,
                           logging: Option<nat>, options: seq<string>)

  /** A `ClientOutputPair`: the index of a shared client and its output. */
  datatype Pair = Pair(client: nat, output: Option<Output>)

  predicate InArena(arena: seq<Client>, chain: seq<Pair>) {
    forall k :: 0 <= k < |chain| ==> chain[k].client < |arena|
  }

  /** The position in `registered` of a client equal to `c`, if any. */
  function Find(arena: seq<Client>, registered: seq<nat>, c: Client): (r: Option<nat>)
    requires forall j :: 0 <= j < |registered| ==> registered[j] < |arena|
    ensures r.None? <==> forall j :: 0 <= j < |registered| ==> arena[registered[j]] != c
    ensures r.Some? ==> r.value < |registered| && arena[registered[r.value]] == c
  {
    if |registered| == 0 then None
    else if arena[registered[0]] == c then Some(0)
    else
      var r := Find(arena, registered[1..], c);
      if r.None? then None else Some(r.value + 1)
  }

  /** The clients registered so far are pairwise different values. */
  predicate Registry(arena: seq<Client>, registered: seq<nat>) {
    && (forall j :: 0 <= j < |registered| ==> registered[j] < |arena|)
    && (forall i, j :: 0 <= i < j < |registered| ==> arena[registered[i]] != arena[registered[j]])
  }

  /** `HashSet::insert` of the client at `id`: the index of an equal
      registered client, or `id` itself, now registered. */
  function Register(arena: seq<Client>, registered: seq<nat>, id: nat): (r: (nat, seq<nat>))
    requires Registry(arena, registered) && id < |arena|
    ensures Registry(arena, r.1) && registered <= r.1
    ensures r.0 < |arena| && arena[r.0] == arena[id] && r.0 in r.1
  {
    match Find(arena, registered, arena[id])
    case Some(j) => (registered[j], registered)
    case None => (id, registered + [id])
  }

  /** `dedup`: every client of the chain equal to one already registered
      (`HashSet::insert` returns false) is replaced by the registered one;
      the others are registered. */
  function Dedup(arena: seq<Client>, chain: seq<Pair>, registered: seq<nat>): (r: (seq<Pair>, seq<nat>))
    requires InArena(arena, chain) && Registry(arena, registered)
    ensures Registry(arena, r.1) && InArena(arena, r.0) && |r.0| == |chain|
    ensures registered <= r.1
    ensures forall k :: 0 <= k < |chain| ==>
      && arena[r.0[k].client] == arena[chain[k].client]
      && r.0[k].output == chain[k].output
      && r.0[k].client in r.1
    decreases |chain|
  {
    if |chain| == 0 then ([], registered)
    else
      var p := chain[0];
      var (id, reg) := Register(arena, registered, p.client);
      var (rest, reg2) := Dedup(arena, chain[1..], reg);
      PrefixTrans(registered, reg, reg2);
      assert forall k :: 1 <= k < |chain| ==> chain[k] == chain[1..][k - 1];
      ([p.(client := id)] + rest, reg2)
  }

  lemma PrefixTrans(a: seq<nat>, b: seq<nat>, c: seq<nat>)
    requires a <= b && b <= c
    ensures a <= c && forall x :: x in b ==> x in c
  {
    assert c[..|b|] == b;
  }

  /** A registered client has a single index for its value. */
  lemma RegistryUnique(arena: seq<Client>, registered: seq<nat>, a: nat, b: nat)
    requires Registry(arena, registered) && a in registered && b in registered
    requires arena[a] == arena[b]
    ensures a == b
  {
  }

  /** After `dedup`, equal clients of the chain are one shared client. */
  lemma DedupShares(arena: seq<Client>, chain: seq<Pair>, registered: seq<nat>, i: nat, j: nat)
    requires InArena(arena, chain) && Registry(arena, registered)
    requires i < |chain| && j < |chain| && arena[chain[i].client] == arena[chain[j].client]
    ensures Dedup(arena, chain, registered).0[i].client == Dedup(arena, chain, registered).0[j].client
  {
    var r := Dedup(arena, chain, registered);
    RegistryUnique(arena, r.1, r.0[i].client, r.0[j].client);
  }

  /** The client at position `k` of the chain before any rate is set. */
  function At(arena: seq<Client>, chain: seq<Pair>, k: nat): Client
    requires InArena(arena, chain) && k < |chain|
  {
    arena[chain[k].client]
  }

  /** The input rate `match_rates` leaves at position `k`: a zero rate
      becomes the flow rate when an output feeds the client, when the
      client has no output of its own, or when it is a sub-system. */
  function InRate(arena: seq<Client>, chain: seq<Pair>, flow: nat, k: nat): nat
    requires InArena(arena, chain) && k < |chain|
  {
    var c := At(arena, chain, k);
    if c.inputRate == 0 && ((k > 0 && chain[k - 1].output.Some?) || chain[k].output.None? || c.subSystem)
    then flow else c.inputRate
  }

  /** The output rate left at position `k`: a zero rate of a client with an
      output becomes the flow rate. */
  function OutRate(arena: seq<Client>, chain: seq<Pair>, flow: nat, k: nat): nat
    requires InArena(arena, chain) && k < |chain|
  {
    var c := At(arena, chain, k);
    if chain[k].output.Some? && c.outputRate == 0 then flow else c.outputRate
  }

  /** The output left at position `k`: a link between different rates gets
      the transition from the output rate to the next input rate. */
  function OutputAt(arena: seq<Client>, chain: seq<Pair>, flow: nat, k: nat): Option<Output>
    requires InArena(arena, chain) && k < |chain|
  {
    var o := chain[k].output;
    if o.Some? && k + 1 < |chain| && OutRate(arena, chain, flow, k) != InRate(arena, chain, flow, k + 1)
    then Some(o.value.(transition := Some((InRate(arena, chain, flow, k + 1), OutRate(arena, chain, flow, k)))))
    else o
  }

  /** The client at position `i` as the pass finds it: only the output
      before it may have set its input rate. */
  function Pending(arena: seq<Client>, chain: seq<Pair>, flow: nat, i: nat): Client
    requires InArena(arena, chain) && i < |chain|
  {
    var c := At(arena, chain, i);
    if i > 0 && chain[i - 1].output.Some? && c.inputRate == 0 then c.(inputRate := flow) else c
  }

  /** One turn of the `match_rates` loop at position `i`, on the current
      arena: the new arena and the new output of the pair. */
  function Step(arena: seq<Client>, chain: seq<Pair>, flow: nat, i: nat): (r: (seq<Client>, Option<Output>))
    requires InArena(arena, chain) && i < |chain|
    ensures |r.0| == |arena|
  {
    var p := chain[i];
    var c := arena[p.client];
    match p.output
    case None =>
      (arena[p.client := if c.inputRate == 0 then c.(inputRate := flow) else c], None)
    case Some(o) =>
      var (arena1, o1) :=
        if i + 1 < |chain| then
          var out := if c.outputRate == 0 then flow else c.outputRate;
          var a1 := arena[p.client := c.(outputRate := out)];
          var next := a1[chain[i + 1].client];
          var inp := if next.inputRate == 0 then flow else next.inputRate;
          var a2 := a1[chain[i + 1].client := next.(inputRate := inp)];
          (a2, if out != inp then o.(transition := Some((inp, out))) else o)
        else
          (arena[p.client := c.(outputRate := if c.outputRate == 0 then flow else c.outputRate)], o);
      var c1 := arena1[p.client];
      (if c1.subSystem && c1.inputRate == 0 then arena1[p.client := c1.(inputRate := flow)] else arena1, Some(o1))
  }

  /** No client appears twice in the chain. */
  predicate DistinctClients(chain: seq<Pair>) {
    forall i, j :: 0 <= i < j < |chain| ==> chain[i].client != chain[j].client
  }

  /** Where the pass stands before turn `i`: the clients and outputs before
      `i` are final, the client at `i` is pending, and the rest, as well as
      every client outside the chain, is untouched. */
  predicate Progress(arena0: seq<Client>, chain: seq<Pair>, flow: nat, i: nat,
                     arena: seq<Client>, outputs: seq<Option<Output>>)
    requires InArena(arena0, chain)
  {
    && i <= |chain| && |arena| == |arena0| && |outputs| == i
    && (forall k :: 0 <= k < i ==>
          && arena[chain[k].client] == At(arena0, chain, k).(inputRate := InRate(arena0, chain, flow, k), outputRate := OutRate(arena0, chain, flow, k))
          && outputs[k] == OutputAt(arena0, chain, flow, k))
    && (i < |chain| ==> arena[chain[i].client] == Pending(arena0, chain, flow, i))
    && (forall k :: i < k < |chain| ==> arena[chain[k].client] == At(arena0, chain, k))
    && (forall id :: 0 <= id < |arena0| && (forall k :: 0 <= k < |chain| ==> chain[k].client != id) ==> arena[id] == arena0[id])
  }

  /** A turn moves the pass one position on. */
  lemma StepProgress(arena0: seq<Client>, chain: seq<Pair>, flow: nat, i: nat,
                     arena: seq<Client>, outputs: seq<Option<Output>>)
    requires InArena(arena0, chain) && DistinctClients(chain) && i < |chain|
    requires Progress(arena0, chain, flow, i, arena, outputs)
    ensures InArena(arena, chain)
    ensures Progress(arena0, chain, flow, i + 1, Step(arena, chain, flow, i).0, outputs + [Step(arena, chain, flow, i).1])
  {
    var (a, o) := Step(arena, chain, flow, i);
    var outs := outputs + [o];
    assert outs[i] == OutputAt(arena0, chain, flow, i);
    assert forall k :: 0 <= k < i ==> outs[k] == outputs[k];
    forall k | 0 <= k < |chain| && k != i && k != i + 1
      ensures a[chain[k].client] == arena[chain[k].client]
    {
      assert chain[k].client != chain[i].client;
      if i + 1 < |chain| {
        assert chain[k].client != chain[i + 1].client;
      }
    }
    if i + 1 < |chain| {
      assert chain[i].client != chain[i + 1].client;
    }
  }

  /** `match_rates(flow_rate)`: one pass along the chain. The clients are
      assumed distinct within the chain (a client on both ends of a link
      would be borrowed twice, which panics). */
  method MatchRates(arena0: seq<Client>, chain: seq<Pair>, flow: nat) returns (arena: seq<Client>, result: seq<Pair>)
    requires InArena(arena0, chain) && DistinctClients(chain)
    ensures |arena| == |arena0| && |result| == |chain|
    ensures forall k :: 0 <= k < |chain| ==>
      && result[k].client == chain[k].client
      && result[k].output == OutputAt(arena0, chain, flow, k)
      && arena[chain[k].client] == At(arena0, chain, k).(inputRate := InRate(arena0, chain, flow, k), outputRate := OutRate(arena0, chain, flow, k))
    ensures forall id :: 0 <= id < |arena0| && (forall k :: 0 <= k < |chain| ==> chain[k].client != id) ==> arena[id] == arena0[id]
  {
    arena := arena0;
    var outputs: seq<Option<Output>> := [];
    var i := 0;
    while i < |chain|
      invariant InArena(arena, chain)
      invariant Progress(arena0, chain, flow, i, arena, outputs)
    {
      StepProgress(arena0, chain, flow, i, arena, outputs);
      var (a, o) := Step(arena, chain, flow, i);
      arena, outputs := a, outputs + [o];
      i := i + 1;
    }
    result := seq(|chain|, k requires 0 <= k < |chain| => chain[k].(output := outputs[k]));
  }

  /** With a positive flow rate, every rate the pass is responsible for is
      set: the output rate of every client with an output, and the input
      rate of every client fed by an output, without an output, or that is
      a sub-system. */
  lemma MatchedRatesPositive(arena0: seq<Client>, chain: seq<Pair>, flow: nat, k: nat)
    requires InArena(arena0, chain) && k < |chain| && flow > 0
    ensures chain[k].output.Some? ==> OutRate(arena0, chain, flow, k) > 0
    ensures (k > 0 && chain[k - 1].output.Some?) || chain[k].output.None? || At(arena0, chain, k).subSystem
      ==> InRate(arena0, chain, flow, k) > 0
  {
  }

  /** A rate the script gives is never overridden. */
  lemma MatchedRatesKept(arena0: seq<Client>, chain: seq<Pair>, flow: nat, k: nat)
    requires InArena(arena0, chain) && k < |chain|
    ensures At(arena0, chain, k).inputRate > 0 ==> InRate(arena0, chain, flow, k) == At(arena0, chain, k).inputRate
    ensures At(arena0, chain, k).outputRate > 0 ==> OutRate(arena0, chain, flow, k) == At(arena0, chain, k).outputRate
  {
  }

  /** Every link either joins equal rates or carries the transition from
      the output rate to the input rate it feeds. */
  lemma LinksMatched(arena0: seq<Client>, chain: seq<Pair>, flow: nat, k: nat)
    requires InArena(arena0, chain) && k + 1 < |chain| && chain[k].output.Some?
    ensures OutputAt(arena0, chain, flow, k).Some?
    ensures OutRate(arena0, chain, flow, k) == InRate(arena0, chain, flow, k + 1)
      || OutputAt(arena0, chain, flow, k).value.transition == Some((InRate(arena0, chain, flow, k + 1), OutRate(arena0, chain, flow, k)))
  {
  }

  /** Matching the rates of a chain a second time changes nothing. */
  lemma MatchRatesIdempotent(arena0: seq<Client>, chain: seq<Pair>, flow: nat, arena1: seq<Client>, chain1: seq<Pair>)
    requires InArena(arena0, chain) && DistinctClients(chain)
    requires |arena1| == |arena0| && |chain1| == |chain|
    requires forall k :: 0 <= k < |chain| ==>
      && chain1[k].client == chain[k].client
      && chain1[k].output == OutputAt(arena0, chain, flow, k)
      && arena1[chain[k].client] == At(arena0, chain, k).(inputRate := InRate(arena0, chain, flow, k), outputRate := OutRate(arena0, chain, flow, k))
    ensures InArena(arena1, chain1)
    ensures forall k :: 0 <= k < |chain| ==>
      && InRate(arena1, chain1, flow, k) == InRate(arena0, chain, flow, k)
      && OutRate(arena1, chain1, flow, k) == OutRate(arena0, chain, flow, k)
      && OutputAt(arena1, chain1, flow, k) == OutputAt(arena0, chain, flow, k)
  {
    forall k | 0 <= k < |chain|
      ensures InRate(arena1, chain1, flow, k) == InRate(arena0, chain, flow, k)
      ensures OutRate(arena1, chain1, flow, k) == OutRate(arena0, chain, flow, k)
    {
      assert chain1[k].output.Some? == chain[k].output.Some?;
      if k > 0 {
        assert chain1[k - 1].output.Some? == chain[k - 1].output.Some?;
      }
    }
  }

  /** Position `k` starts a run of equal entries: it is the first, or its
      entry differs from the one before. */
  predicate IsRunStart(xs: seq<string>, k: int) {
    0 <= k < |xs| && (k == 0 || xs[k] != xs[k - 1])
  }

  /** The positions where a run of equal entries starts, in order. */
  function RunStarts(xs: seq<string>): (r: seq<nat>)
    ensures forall k :: k in r <==> IsRunStart(xs, k)
    ensures forall i, j :: 0 <= i < j < |r| ==> r[i] < r[j]
    ensures forall j :: 0 <= j < |r| ==> r[j] < |xs|
    decreases |xs|
  {
    if |xs| == 0 then []
    else
      var n := |xs| - 1;
      var ys := xs[..n];
      var rest := RunStarts(ys);
      assert forall k :: IsRunStart(xs, k) && k < n <==> IsRunStart(ys, k);
      if n == 0 || xs[n] != xs[n - 1] then rest + [n] else rest
  }

  /** `Vec::dedup`: drops every entry equal to the one before it, so that
      the first entry of each run of equal entries is kept, in order. */
  function DedupAdjacent(xs: seq<string>): (r: seq<string>)
    ensures |r| <= |xs| && (|xs| > 0 ==> |r| > 0 && r[|r| - 1] == xs[|xs| - 1])
    ensures forall k :: 0 <= k < |r| - 1 ==> r[k] != r[k + 1]
    ensures forall x :: x in r <==> x in xs
    ensures |r| == |RunStarts(xs)|
    ensures forall j :: 0 <= j < |r| ==> r[j] == xs[RunStarts(xs)[j]]
    decreases |xs|
  {
    if |xs| <= 1 then xs
    else
      var rest := DedupAdjacent(xs[..|xs| - 1]);
      assert forall x :: x in xs <==> x in xs[..|xs| - 1] || x == xs[|xs| - 1];
      if rest[|rest| - 1] == xs[|xs| - 1] then rest else rest + [xs[|xs| - 1]]
  }

  /** The sink an implicit flow leads to. */
  datatype Sink = ScopeSink | LoggerSink(size: nat)

  /** An implicit flow: the client's output, unbounded and plain, into a
      scope or a logger. */
  datatype Implicit = Implicit(client: nat, output: Output, sink: Sink)

  /** The output the implicit flows take: `unbounded` added to the options
      (adjacent repeats dropped), no transition, scope or logging. */
  function Plain(o: Output): (r: Output)
    ensures r.name == o.name && r.transition.None? && !r.scope && r.logging.None?
    ensures |r.options| > 0 && r.options[|r.options| - 1] == "unbounded"
    ensures forall x :: x in r.options <==> x in o.options || x == "unbounded"
  {
    Output(o.name, None, false, None, DedupAdjacent(o.options + ["unbounded"]))
  }

  /** The implicit flows of one pair: one to a scope if the output is
      scoped, then one to a logger if it is logged. */
  function ImplicitsOf(p: Pair): (r: seq<Implicit>)
    ensures p.output.None? ==> r == []
  {
    match p.output
    case None => []
    case Some(o) =>
      (if o.scope then [Implicit(p.client, Plain(o), ScopeSink)] else [])
      + (if o.logging.Some? then [Implicit(p.client, Plain(o), LoggerSink(o.logging.value))] else [])
  }

  /** `implicits`: the scope and logger flows of the chain, in order. */
  function Implicits(chain: seq<Pair>): (r: seq<Implicit>)
    ensures |r| == NImplicits(chain)
    ensures forall x :: x in r ==> exists k :: 0 <= k < |chain| && x in ImplicitsOf(chain[k])
    decreases |chain|
  {
    if |chain| == 0 then []
    else
      var rest := Implicits(chain[1..]);
      assert forall x :: x in rest ==> exists k :: 0 <= k < |chain| && x in ImplicitsOf(chain[k]) by {
        forall x | x in rest ensures exists k :: 0 <= k < |chain| && x in ImplicitsOf(chain[k]) {
          var k :| 0 <= k < |chain[1..]| && x in ImplicitsOf(chain[1..][k]);
          assert chain[k + 1] == chain[1..][k];
        }
      }
      ImplicitsOf(chain[0]) + rest
  }

  /** One flow per scoped output and one per logged output. */
  function NImplicits(chain: seq<Pair>): nat {
    if |chain| == 0 then 0
    else
      var o := chain[0].output;
      (if o.Some? && o.value.scope then 1 else 0) + (if o.Some? && o.value.logging.Some? then 1 else 0)
      + NImplicits(chain[1..])
  }
}
