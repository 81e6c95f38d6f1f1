/**
 The wiring of actors: the builder of an actor's outputs (how many
 channels, of what capacity, bootstrapped or not), the hand-over of the
 channel receivers to the inputs of other actors, the checks of an actor's
 inputs and outputs against its sampling rates, and the rhythm of its run
 loop. Channels, tasks and clients are reduced to the numbers the rules
 look at; the hashes of inputs and outputs are opaque numbers.
 */
module Actors {
  import opened Common

  /** `ActorOutputBuilder`: one channel capacity per receiver, and whether
      the output sends once before the actor's first update. */
  datatype OutputBuilder = OutputBuilder(capacity: seq<nat>, bootstrap: bool)

  /** `ActorOutputBuilder::new(n)`: `n` channels of capacity 1. */
  function NewBuilder(n: nat): (b: OutputBuilder)
    ensures |b.capacity| == n && !b.bootstrap
    ensures forall k :: 0 <= k < n ==> b.capacity[k] == 1
  {
    OutputBuilder(Repeat(1, n), false)
  }

  /** `unbounded`: every channel without a bound, as many as before. */
  function Unbounded(b: OutputBuilder): (r: OutputBuilder)
    ensures |r.capacity| == |b.capacity| && r.bootstrap == b.bootstrap
    ensures forall k :: 0 <= k < |r.capacity| ==> r.capacity[k] == UsizeMax
  {
    b.(capacity := Repeat(UsizeMax, |b.capacity|))
  }

  /** `bootstrap`: only the flag changes. */
  function Bootstrap(b: OutputBuilder): (r: OutputBuilder)
    ensures r.capacity == b.capacity && r.bootstrap
  {
    b.(bootstrap := true)
  }

  /** `multiplex(n)`: `n` channels, all of the first channel's capacity (a
      builder without channels panics on `capacity[0]`). */
  function Multiplex(b: OutputBuilder, n: nat): (r: OutputBuilder)
    requires |b.capacity| > 0
    ensures |r.capacity| == n && r.bootstrap == b.bootstrap
    ensures forall k :: 0 <= k < n ==> r.capacity[k] == b.capacity[0]
  {
    b.(capacity := Repeat(b.capacity[0], n))
  }

  /** The settings of a builder can be given in any order: an unbounded
      multiplexed output is a multiplexed unbounded one. */
  lemma UnboundedMultiplexCommute(b: OutputBuilder, n: nat)
    requires |b.capacity| > 0
    ensures |Unbounded(b).capacity| > 0
    ensures Unbounded(Multiplex(b, n)) == Multiplex(Unbounded(b), n)
    ensures Bootstrap(Multiplex(b, n)) == Multiplex(Bootstrap(b), n)
  {
  }

  /** A channel as `flume` makes it. */
  datatype Channel = Bounded(cap: nat) | Unlimited

  /** An output of an actor: its hash, its channels and its bootstrap flag. */
  datatype Output = Output(hash: nat, senders: seq<Channel>, bootstrap: bool)

  /** `build`: one channel per capacity, unbounded exactly when the capacity
      is `usize::MAX`; the output has as many senders as receivers. */
  function Build(b: OutputBuilder, hash: nat): (r: (Output, nat))
    ensures |r.0.senders| == |b.capacity| == r.1 && r.0.bootstrap == b.bootstrap && r.0.hash == hash
    ensures forall k :: 0 <= k < |b.capacity| ==>
      (r.0.senders[k].Unlimited? <==> b.capacity[k] == UsizeMax)
      && (r.0.senders[k].Bounded? ==> r.0.senders[k].cap == b.capacity[k])
  {
    var senders := seq(|b.capacity|, k requires 0 <= k < |b.capacity| =>
      if b.capacity[k] == UsizeMax then Unlimited else Bounded(b.capacity[k]));
    (Output(hash, senders, b.bootstrap), |b.capacity|)
  }

  /** An unbounded output builds channels without bound only. */
  lemma BuildUnbounded(b: OutputBuilder, hash: nat)
    ensures forall k :: 0 <= k < |b.capacity| ==> Build(Unbounded(b), hash).0.senders[k] == Unlimited
  {
  }

  /** The input side of a connection: the hash of the output it reads. */
  datatype Input = Input(hash: nat)

  /** An actor with input rate `ni` and output rate `no` (the const
      generics `NI` and `NO`). */
  datatype Actor = Actor(name: string, ni: nat, no: nat,
                         inputs: Option<seq<Input>>, outputs: Option<seq<Output>>)

  /** `Actor::new`: neither inputs nor outputs. */
  function NewActor(name: string, ni: nat, no: nat): (a: Actor)
    ensures a.inputs.None? && a.outputs.None? && a.ni == ni && a.no == no
  {
    Actor(name, ni, no, None, None)
  }

  /** Appending to an optional list, creating it when absent. */
  function Push<T>(list: Option<seq<T>>, x: T): (r: Option<seq<T>>)
    ensures r.Some? && r.value == (if list.Some? then list.value else []) + [x]
  {
    match list
    case None => Some([x])
    case Some(xs) => Some(xs + [x])
  }

  /** `build` on an actor: the output is appended to its outputs, and the
      receivers are handed back. */
  function AddOutput(a: Actor, b: OutputBuilder, hash: nat): (r: (Actor, nat))
    ensures r.0.outputs.Some? && r.1 == |b.capacity|
    ensures r.0.inputs == a.inputs && r.0.ni == a.ni && r.0.no == a.no
    ensures NOutputs(r.0) == NOutputs(a) + |b.capacity|
  {
    var (o, rxs) := Build(b, hash);
    var outs := if a.outputs.Some? then a.outputs.value else [];
    SumSendersAppend(outs, [o]);
    (a.(outputs := Push(a.outputs, o)), rxs)
  }

  /** `into_input`: the last receiver left, if any, becomes an input of the
      reading actor. */
  function IntoInput(receivers: nat, hash: nat, reader: Actor): (r: (nat, Actor))
    ensures receivers == 0 ==> r == (0, reader)
    ensures receivers > 0 ==> r.0 == receivers - 1 && r.1.inputs == Push(reader.inputs, Input(hash))
    ensures r.1.outputs == reader.outputs
  {
    if receivers == 0 then (0, reader)
    else (receivers - 1, reader.(inputs := Push(reader.inputs, Input(hash))))
  }

  datatype ActorError =
    | OrphanOutput(who: string)
    | SomeInputsZeroRate(who: string)
    | NoInputsPositiveRate(who: string)
    | SomeOutputsZeroRate(who: string)
    | NoOutputsPositiveRate(who: string)

  /** `confirm`: every receiver must have found a reader. */
  function Confirm(a: Actor, receivers: nat): (r: Result<Actor, ActorError>)
    ensures r.Ok? <==> receivers == 0
    ensures r.Ok? ==> r.value == a
    ensures r.Err? ==> r.error == OrphanOutput(a.name)
  {
    if receivers == 0 then Ok(a) else Err(OrphanOutput(a.name))
  }

  /** Handing `k` receivers out of `n` leaves `n - k` (none once `k >= n`),
      so the connection is confirmed exactly when every receiver was used. */
  function HandOut(receivers: nat, hash: nat, readers: seq<Actor>): (r: (nat, seq<Actor>))
    ensures |r.1| == |readers|
    ensures r.0 == if |readers| >= receivers then 0 else receivers - |readers|
    ensures forall j :: 0 <= j < |readers| ==> r.1[j].outputs == readers[j].outputs
    ensures forall j :: 0 <= j < |readers| && j < receivers ==>
      r.1[j].inputs == Push(readers[j].inputs, Input(hash))
    ensures forall j :: receivers <= j < |readers| ==> r.1[j] == readers[j]
    decreases |readers|
  {
    if |readers| == 0 then (receivers, [])
    else
      var (left, first) := IntoInput(receivers, hash, readers[0]);
      var (rest, others) := HandOut(left, hash, readers[1..]);
      (rest, [first] + others)
  }

  /** A multiplexed output is confirmed exactly when it was fed into at
      least as many actors as it was multiplexed. */
  lemma MultiplexConfirm(a: Actor, n: nat, hash: nat, readers: seq<Actor>)
    ensures var (a1, rxs) := AddOutput(a, Multiplex(NewBuilder(1), n), hash);
      Confirm(a1, HandOut(rxs, hash, readers).0).Ok? <==> |readers| >= n
  {
  }

  /** `check_inputs`: inputs go with a positive input rate. */
  function CheckInputs(a: Actor): (r: Result<(), ActorError>)
    ensures r.Ok? <==> (a.inputs.Some? <==> a.ni > 0)
    ensures r.Err? ==> r.error == (if a.inputs.Some? then SomeInputsZeroRate(a.name) else NoInputsPositiveRate(a.name))
  {
    match a.inputs
    case Some(_) => if a.ni == 0 then Err(SomeInputsZeroRate(a.name)) else Ok(())
    case None => if a.ni > 0 then Err(NoInputsPositiveRate(a.name)) else Ok(())
  }

  /** `check_outputs`: outputs go with a positive output rate. */
  function CheckOutputs(a: Actor): (r: Result<(), ActorError>)
    ensures r.Ok? <==> (a.outputs.Some? <==> a.no > 0)
    ensures r.Err? ==> r.error == (if a.outputs.Some? then SomeOutputsZeroRate(a.name) else NoOutputsPositiveRate(a.name))
  {
    match a.outputs
    case Some(_) => if a.no == 0 then Err(SomeOutputsZeroRate(a.name)) else Ok(())
    case None => if a.no > 0 then Err(NoOutputsPositiveRate(a.name)) else Ok(())
  }

  /** Number of senders over all outputs. */
  function SumSenders(outs: seq<Output>): nat {
    if |outs| == 0 then 0 else |outs[0].senders| + SumSenders(outs[1..])
  }

  lemma {:induction false} SumSendersAppend(a: seq<Output>, b: seq<Output>)
    ensures SumSenders(a + b) == SumSenders(a) + SumSenders(b)
  {
    if |a| > 0 {
      assert (a + b)[1..] == a[1..] + b;
      SumSendersAppend(a[1..], b);
    } else {
      assert a + b == b;
    }
  }

  /** `n_inputs` */
  function NInputs(a: Actor): nat {
    if a.inputs.Some? then |a.inputs.value| else 0
  }

  /** `n_outputs`: the senders of all outputs. */
  function NOutputs(a: Actor): nat {
    if a.outputs.Some? then SumSenders(a.outputs.value) else 0
  }

  /** `inputs_hashes`: one hash per input. */
  function InputsHashes(a: Actor): (r: seq<nat>)
    ensures |r| == NInputs(a)
    ensures forall k :: 0 <= k < |r| ==> r[k] == a.inputs.value[k].hash
  {
    if a.inputs.Some? then seq(|a.inputs.value|, k requires 0 <= k < |a.inputs.value| => a.inputs.value[k].hash)
    else []
  }

  /** The hash of each output, repeated once per sender. */
  function RepeatHashes(outs: seq<Output>): (r: seq<nat>)
    ensures |r| == SumSenders(outs)
    ensures forall h :: h in r ==> exists k :: 0 <= k < |outs| && outs[k].hash == h && |outs[k].senders| > 0
  {
    if |outs| == 0 then []
    else
      var rest := RepeatHashes(outs[1..]);
      assert forall h :: h in rest ==> exists k :: 1 <= k < |outs| && outs[k].hash == h && |outs[k].senders| > 0 by {
        forall h | h in rest ensures exists k :: 1 <= k < |outs| && outs[k].hash == h && |outs[k].senders| > 0 {
          var k :| 0 <= k < |outs[1..]| && outs[1..][k].hash == h && |outs[1..][k].senders| > 0;
          assert outs[k + 1] == outs[1..][k];
        }
      }
      Repeat(outs[0].hash, |outs[0].senders|) + rest
  }

  /** Where the senders of output `k` start among the senders of all
      outputs: after those of the outputs before it. */
  function SendersStart(outs: seq<Output>, k: nat): nat
    requires k <= |outs|
  {
    SumSenders(outs[..k])
  }

  /** The hash of output `k` fills the places of its senders, right after
      the senders of the outputs before it. */
  lemma {:induction false} RepeatHashesPlaced(outs: seq<Output>)
    ensures forall k :: 0 <= k < |outs| ==>
      SendersStart(outs, k) + |outs[k].senders| <= |RepeatHashes(outs)| &&
      RepeatHashes(outs)[SendersStart(outs, k)..SendersStart(outs, k) + |outs[k].senders|]
        == Repeat(outs[k].hash, |outs[k].senders|)
  {
    if |outs| > 0 {
      RepeatHashesPlaced(outs[1..]);
      var r := RepeatHashes(outs);
      var n0 := |outs[0].senders|;
      var rest := RepeatHashes(outs[1..]);
      assert r == Repeat(outs[0].hash, n0) + rest;
      forall k | 0 <= k < |outs|
        ensures SendersStart(outs, k) + |outs[k].senders| <= |r|
        ensures r[SendersStart(outs, k)..SendersStart(outs, k) + |outs[k].senders|] == Repeat(outs[k].hash, |outs[k].senders|)
      {
        if k > 0 {
          assert outs[..k][1..] == outs[1..][..k - 1];
          assert outs[1..][k - 1] == outs[k];
          var a := SendersStart(outs[1..], k - 1);
          assert SendersStart(outs, k) == n0 + a;
          assert r[n0 + a..n0 + a + |outs[k].senders|] == rest[a..a + |outs[k].senders|];
        } else {
          assert r[..n0] == Repeat(outs[0].hash, n0);
        }
      }
    }
  }

  /** `outputs_hashes`: each output's hash repeated once per sender, output
      after output, so as many hashes as `n_outputs` counts senders. */
  function OutputsHashes(a: Actor): (r: seq<nat>)
    ensures |r| == NOutputs(a)
    ensures a.outputs.Some? ==> forall h :: h in r ==> exists k :: 0 <= k < |a.outputs.value| && a.outputs.value[k].hash == h
    ensures a.outputs.Some? ==> forall k :: 0 <= k < |a.outputs.value| ==>
      var outs := a.outputs.value;
      SendersStart(outs, k) + |outs[k].senders| <= |r| &&
      r[SendersStart(outs, k)..SendersStart(outs, k) + |outs[k].senders|] == Repeat(outs[k].hash, |outs[k].senders|)
  {
    if a.outputs.Some? then
      RepeatHashesPlaced(a.outputs.value);
      RepeatHashes(a.outputs.value)
    else []
  }

  /** The bootstrap rounds: once when the output rate is at least the input
      rate, else `NI / NO` times (`NO == 0` would divide by zero). Without
      outputs nothing is sent. */
  function BootstrapRounds(a: Actor): (r: nat)
    requires a.outputs.Some? && a.no < a.ni ==> a.no > 0
    ensures a.outputs.None? ==> r == 0
    ensures a.outputs.Some? && a.no >= a.ni ==> r == 1
    ensures a.outputs.Some? && a.no < a.ni ==> Times(r, a.no) <= a.ni < Times(r + 1, a.no)
  {
    if a.outputs.None? then 0
    else if a.no >= a.ni then 1
    else
      DivBounds(a.ni, a.no);
      a.ni / a.no
  }

  /** One cycle of the run loop: the client updates and output sends. */
  datatype Cycle = Cycle(updates: nat, sends: nat)

  /** The run loop: with both inputs and outputs, `NO / NI` updates per send
      when decimating, `NI / NO` sends per update when upsampling; an
      initiator updates and sends, a terminator only updates, and an actor
      without either does not loop. */
  function RunCycle(a: Actor): (r: Option<Cycle>)
    requires a.inputs.Some? && a.outputs.Some? ==> a.ni > 0 && a.no > 0
    ensures r.None? <==> a.inputs.None? && a.outputs.None?
    ensures a.inputs.None? && a.outputs.Some? ==> r == Some(Cycle(1, 1))
    ensures a.inputs.Some? && a.outputs.None? ==> r == Some(Cycle(1, 0))
  {
    match (a.inputs, a.outputs)
    case (Some(_), Some(_)) =>
      if a.no >= a.ni then Some(Cycle(a.no / a.ni, 1)) else Some(Cycle(1, a.ni / a.no))
    case (None, Some(_)) => Some(Cycle(1, 1))
    case (Some(_), None) => Some(Cycle(1, 0))
    case (None, None) => None
  }

  /** An actor that passes both checks can run, and can bootstrap. */
  lemma CheckedCanRun(a: Actor)
    requires CheckInputs(a).Ok? && CheckOutputs(a).Ok?
    ensures a.inputs.Some? && a.outputs.Some? ==> a.ni > 0 && a.no > 0
    ensures a.outputs.Some? && a.no < a.ni ==> a.no > 0
  {
  }

  /** Decimation: an output rate `k` times the input rate updates `k`
      times per send, so a cycle covers as much time on both sides. */
  lemma RunCycleDecimation(a: Actor, k: nat)
    requires a.inputs.Some? && a.outputs.Some? && a.ni > 0 && k > 0 && a.no == Times(k, a.ni)
    ensures RunCycle(a) == Some(Cycle(k, 1))
  {
    MulAtLeast(k, a.ni);
    DivModUnique(a.no, a.ni, k, 0);
  }

  /** Upsampling: an input rate `k > 1` times the output rate sends `k`
      times per update. */
  lemma RunCycleUpsampling(a: Actor, k: nat)
    requires a.inputs.Some? && a.outputs.Some? && a.no > 0 && k > 1 && a.ni == Times(k, a.no)
    ensures RunCycle(a) == Some(Cycle(1, k))
  {
    assert a.ni == (k - 1) * a.no + a.no;
    MulAtLeast(k - 1, a.no);
    DivModUnique(a.ni, a.no, k, 0);
  }
}
