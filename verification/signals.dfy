/**
 Signal generators: a `Signal` gives a value at every step, and the
 `Signals` client writes one value per channel at each step until its step
 budget is spent. `OneSignal` is the single-channel variant.
 */
module Signals {
  import opened Common

  /** `Signal`; white noise (behind a cargo feature) is left out. */
  datatype Signal =
    | Constant(value: real)
    | Sinusoid(amplitude: real, sampling_frequency_hz: real, frequency_hz: real, phase_s: real)
    | Ramp(a: real, b: real)
    | Sigmoid(amplitude: real, sampling_frequency_hz: real)
    | Composite(parts: seq<Signal>)

  /** Values of the sinusoid and the sigmoid involve `sin` and `exp`, which
      are not modelled: `transcendental(s, i)` stands for them. */
  type Transcendental = (Signal, nat) -> real

  /** `get(i)`: the signal value at step `i`. */
  function Get(s: Signal, i: nat, transcendental: Transcendental): (v: real)
    ensures s.Constant? ==> v == s.value
    ensures s.Ramp? ==> v == s.a * (i as real) + s.b
    decreases s
  {
    match s
    case Constant(value) => value
    case Sinusoid(_, _, _, _) => transcendental(s, i)
    case Ramp(a, b) => a * (i as real) + b
    case Sigmoid(_, _) => transcendental(s, i)
    case Composite(parts) => SumReal(seq(|parts|, k requires 0 <= k < |parts| => Get(parts[k], i, transcendental)))
  }

  /** `Add`: appends to a composite, otherwise makes a composite of the
      two signals. */
  function Plus(s: Signal, rhs: Signal): (r: Signal)
    ensures r.Composite?
    ensures s.Composite? ==> r.parts == s.parts + [rhs]
    ensures !s.Composite? ==> r.parts == [s, rhs]
  {
    if s.Composite? then Composite(s.parts + [rhs]) else Composite([s, rhs])
  }

  /** The value of a sum of signals is the sum of their values. */
  lemma PlusAdds(s: Signal, rhs: Signal, i: nat, transcendental: Transcendental)
    ensures Get(Plus(s, rhs), i, transcendental) == Get(s, i, transcendental) + Get(rhs, i, transcendental)
  {
    var r := Plus(s, rhs);
    var vals := seq(|r.parts|, k requires 0 <= k < |r.parts| => Get(r.parts[k], i, transcendental));
    if s.Composite? {
      var old_vals := seq(|s.parts|, k requires 0 <= k < |s.parts| => Get(s.parts[k], i, transcendental));
      assert vals == old_vals + [Get(rhs, i, transcendental)];
      SumRealAppend(old_vals, [Get(rhs, i, transcendental)]);
    } else {
      assert vals == [Get(s, i, transcendental), Get(rhs, i, transcendental)];
      assert vals[1..] == [Get(rhs, i, transcendental)] && vals[1..][1..] == [];
      assert SumReal(vals[1..]) == Get(rhs, i, transcendental) + SumReal([]);
    }
  }

  /** `Signals`; the progress bar is left out. */
  datatype Signals = Signals(size: nat, signals: seq<Signal>, step: nat, n_step: nat)

  /** `new(n, n_step)`: `n` channels, all zero constants, at step 0. */
  function New(n: nat, n_step: nat): (s: Signals)
    ensures s.size == n && |s.signals| == n && s.step == 0 && s.n_step == n_step
    ensures forall k :: 0 <= k < n ==> s.signals[k] == Constant(0.0)
  {
    Signals(n, Repeat(Constant(0.0), n), 0, n_step)
  }

  /** `channels(signal)`: every one of the `size` channels set to `signal`. */
  function Channels(s: Signals, signal: Signal): (r: Signals)
    ensures r == s.(signals := r.signals)
    ensures |r.signals| == s.size && forall k :: 0 <= k < s.size ==> r.signals[k] == signal
  {
    s.(signals := Repeat(signal, s.size))
  }

  /** `channel(k, signal)`: channel `k` replaced (indexing panics past the
      last channel). */
  function Channel(s: Signals, k: nat, signal: Signal): (r: Signals)
    requires k < |s.signals|
    ensures r == s.(signals := r.signals)
    ensures |r.signals| == |s.signals| && r.signals[k] == signal
    ensures forall j :: 0 <= j < |s.signals| && j != k ==> r.signals[j] == s.signals[j]
  {
    s.(signals := s.signals[k := signal])
  }

  /** The fold of `From<(Vec<f64>, usize)>`: channel `i` of `s` is set to
      the constant `data[i]`, for `i` from `from` on. */
  function FoldChannels(s: Signals, data: seq<real>, from: nat): (r: Signals)
    requires |s.signals| == |data| && from <= |data|
    ensures r == s.(signals := r.signals) && |r.signals| == |data|
    decreases |data| - from
  {
    if from == |data| then s else FoldChannels(Channel(s, from, Constant(data[from])), data, from + 1)
  }

  /** `From<(Vec<f64>, usize)>` */
  function FromData(data: seq<real>, n_step: nat): (s: Signals)
    ensures s.size == |data| && s.step == 0 && s.n_step == n_step
  {
    FoldChannels(New(|data|, n_step), data, 0)
  }

  lemma {:induction false} FoldChannelsContent(s: Signals, data: seq<real>, from: nat)
    requires |s.signals| == |data| && from <= |data|
    ensures forall k :: 0 <= k < from ==> FoldChannels(s, data, from).signals[k] == s.signals[k]
    ensures forall k :: from <= k < |data| ==> FoldChannels(s, data, from).signals[k] == Constant(data[k])
    decreases |data| - from
  {
    if from < |data| {
      FoldChannelsContent(Channel(s, from, Constant(data[from])), data, from + 1);
    }
  }

  /** Channel `i` of the generator made from `data` is the constant
      `data[i]`. */
  lemma FromDataChannels(data: seq<real>, n_step: nat)
    ensures |FromData(data, n_step).signals| == |data|
    ensures forall i :: 0 <= i < |data| ==> FromData(data, n_step).signals[i] == Constant(data[i])
  {
    FoldChannelsContent(New(|data|, n_step), data, 0);
  }

  /** The value of every channel at step `i`. */
  function Sample(signals: seq<Signal>, i: nat, transcendental: Transcendental): (v: seq<real>)
    ensures |v| == |signals|
    ensures forall k :: 0 <= k < |v| ==> v[k] == Get(signals[k], i, transcendental)
  {
    seq(|signals|, k requires 0 <= k < |signals| => Get(signals[k], i, transcendental))
  }

  /** `write`: while the step budget lasts, one value per channel and the
      step advanced; afterwards nothing, and the state is unchanged. */
  function Write(s: Signals, transcendental: Transcendental): (r: (Signals, Option<seq<real>>))
    ensures s.step < s.n_step ==> r.0 == s.(step := s.step + 1) && r.1 == Some(Sample(s.signals, s.step, transcendental))
    ensures s.step >= s.n_step ==> r == (s, None)
  {
    if s.step < s.n_step then (s.(step := s.step + 1), Some(Sample(s.signals, s.step, transcendental)))
    else (s, None)
  }

  /** The outputs of `k` successive writes. */
  function Run(s: Signals, k: nat, transcendental: Transcendental): (outs: seq<Option<seq<real>>>)
    ensures |outs| == k
    decreases k
  {
    if k == 0 then [] else var (s', o) := Write(s, transcendental); [o] + Run(s', k - 1, transcendental)
  }

  /** From step `step`, writes produce the samples at steps `step`,
      `step + 1`, ... up to `n_step - 1`, and `None` from then on. */
  lemma {:induction false} RunOutputs(s: Signals, k: nat, transcendental: Transcendental)
    ensures forall j :: 0 <= j < k ==>
      Run(s, k, transcendental)[j] ==
        (if s.step + j < s.n_step then Some(Sample(s.signals, s.step + j, transcendental)) else None)
    decreases k
  {
    if k > 0 {
      var (s', o) := Write(s, transcendental);
      RunOutputs(s', k - 1, transcendental);
      if s.step >= s.n_step {
        assert s' == s;
      }
    }
  }

  /** A fresh generator with `n_step` steps writes exactly `n_step`
      samples. */
  lemma NewWritesNStep(n: nat, n_step: nat, extra: nat, transcendental: Transcendental)
    ensures var outs := Run(New(n, n_step), n_step + extra, transcendental);
      && (forall j :: 0 <= j < n_step ==> outs[j].Some?)
      && (forall j :: n_step <= j < n_step + extra ==> outs[j].None?)
  {
    RunOutputs(New(n, n_step), n_step + extra, transcendental);
  }

  /** `OneSignal`; the progress bar is left out. */
  datatype OneSignal = OneSignal(signal: Signal, step: nat, n_step: nat)

  datatype SignalsError = TooManyChannels

  /** `TryFrom<Signals>`: an error for more than one channel; with no
      channel at all `remove(0)` panics. */
  function TryFromSignals(s: Signals): (r: Result<OneSignal, SignalsError>)
    requires |s.signals| > 0
    ensures r.Ok? <==> |s.signals| == 1
    ensures r.Ok? ==> r.value == OneSignal(s.signals[0], s.step, s.n_step)
  {
    if |s.signals| > 1 then Err(TooManyChannels) else Ok(OneSignal(s.signals[0], s.step, s.n_step))
  }

  /** `write` of `OneSignal`. */
  function WriteOne(o: OneSignal, transcendental: Transcendental): (r: (OneSignal, Option<real>))
    ensures o.step < o.n_step ==> r.0 == o.(step := o.step + 1) && r.1 == Some(Get(o.signal, o.step, transcendental))
    ensures o.step >= o.n_step ==> r == (o, None)
  {
    if o.step < o.n_step then (o.(step := o.step + 1), Some(Get(o.signal, o.step, transcendental)))
    else (o, None)
  }

  /** A `OneSignal` made from a one-channel generator writes what the
      generator writes, unwrapped from its one-element vector. */
  lemma OneSignalAgrees(s: Signals, transcendental: Transcendental)
    requires |s.signals| == 1
    ensures var o := TryFromSignals(s).value;
      && (WriteOne(o, transcendental).1.Some? <==> Write(s, transcendental).1.Some?)
      && (WriteOne(o, transcendental).1.Some? ==> Write(s, transcendental).1.value == [WriteOne(o, transcendental).1.value])
  {
  }
}
