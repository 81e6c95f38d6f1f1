/**
 The flowchart of a model: actors are listed under their trimmed client
 names, and every input and output edge is coloured by its sampling rate
 through a colour map shared by the whole chart.
 */
module Graph {
  import opened Common
  import TypeNames

  /** The palette size of the `dark28` colour scheme. */
  const PaletteSize: nat := 8

  /** The colour map: the colour given to every rate met so far, and the
      palette in the order it hands colours out. */
  datatype ColorMap = ColorMap(lookup: map<nat, nat>, colors: seq<nat>)

  /** The palette after `offset` colours were handed out. */
  predicate Rotated(colors: seq<nat>, offset: nat) {
    |colors| == PaletteSize && forall j :: 0 <= j < |colors| ==> colors[j] == (offset + j) % PaletteSize + 1
  }

  /** A colour map as `new` and `get` leave it: the palette has turned once
      per rate in the lookup, and every colour is one of the palette's. */
  predicate Valid(cm: ColorMap) {
    && Rotated(cm.colors, |cm.lookup|)
    && forall r :: r in cm.lookup ==> 1 <= cm.lookup[r] <= PaletteSize
  }

  /** `ColorMap::new`: an empty lookup and the palette `1..=8`. */
  function NewColorMap(): (cm: ColorMap)
    ensures cm.lookup == map[] && cm.colors == [1, 2, 3, 4, 5, 6, 7, 8]
  {
    ColorMap(map[], [1, 2, 3, 4, 5, 6, 7, 8])
  }

  /** `ColorMap::get`: a rate met before keeps its colour; a new rate takes
      the front colour and the palette rotates left by one. */
  function Get(cm: ColorMap, rate: nat): (r: (ColorMap, nat))
    requires |cm.colors| > 0
    ensures rate in cm.lookup ==> r == (cm, cm.lookup[rate])
    ensures rate !in cm.lookup ==>
      && r.1 == cm.colors[0]
      && r.0.lookup == cm.lookup[rate := cm.colors[0]]
      && r.0.colors == cm.colors[1..] + [cm.colors[0]]
    ensures |r.0.colors| == |cm.colors|
  {
    if rate in cm.lookup then (cm, cm.lookup[rate])
    else
      var color := cm.colors[0];
      (ColorMap(cm.lookup[rate := color], cm.colors[1..] + [color]), color)
  }

  /** A lookup keeps the map valid, and the colour is in the palette. */
  lemma GetValid(cm: ColorMap, rate: nat)
    requires Valid(cm)
    ensures Valid(Get(cm, rate).0)
    ensures 1 <= Get(cm, rate).1 <= PaletteSize
    ensures rate !in cm.lookup ==> Get(cm, rate).1 == |cm.lookup| % PaletteSize + 1
  {
    if rate !in cm.lookup {
      GetRotated(cm, rate);
    }
  }

  /** A new rate turns the palette once more and takes the colour at the
      current offset. */
  lemma GetRotated(cm: ColorMap, rate: nat)
    requires Rotated(cm.colors, |cm.lookup|) && rate !in cm.lookup
    ensures var (next, c) := Get(cm, rate);
      && |next.lookup| == |cm.lookup| + 1
      && Rotated(next.colors, |next.lookup|)
      && c == |cm.lookup| % PaletteSize + 1
  {
    var next := Get(cm, rate).0;
    assert |next.lookup| == |cm.lookup| + 1;
    forall j | 0 <= j < PaletteSize
      ensures next.colors[j] == (|cm.lookup| + 1 + j) % PaletteSize + 1
    {
      if j + 1 < PaletteSize {
        assert next.colors[j] == cm.colors[j + 1];
      } else {
        assert next.colors[j] == cm.colors[0];
      }
    }
  }

  /** Asking twice for the same rate gives the same colour and no change. */
  lemma GetIdempotent(cm: ColorMap, rate: nat)
    requires |cm.colors| > 0
    ensures Get(Get(cm, rate).0, rate) == Get(cm, rate)
  {
  }

  /** The colours of a run of edges, in order, with the map they leave. */
  function Colors(cm: ColorMap, rates: seq<nat>): (r: (ColorMap, seq<nat>))
    requires |cm.colors| > 0
    ensures |r.1| == |rates| && |r.0.colors| == |cm.colors|
    decreases |rates|
  {
    if |rates| == 0 then (cm, [])
    else
      var (cm1, c) := Get(cm, rates[0]);
      var (cm2, cs) := Colors(cm1, rates[1..]);
      (cm2, [c] + cs)
  }

  /** The map a run of edges leaves keeps every colour given before, and
      gives every rate of the run the colour its edge got. */
  lemma {:induction false} ColorsLookup(cm: ColorMap, rates: seq<nat>)
    requires |cm.colors| > 0
    ensures var r := Colors(cm, rates);
      && (forall k :: k in cm.lookup ==> k in r.0.lookup && r.0.lookup[k] == cm.lookup[k])
      && (forall i :: 0 <= i < |rates| ==> rates[i] in r.0.lookup && r.0.lookup[rates[i]] == r.1[i])
    decreases |rates|
  {
    if |rates| > 0 {
      var cm1 := Get(cm, rates[0]).0;
      ColorsLookup(cm1, rates[1..]);
      assert forall i :: 1 <= i < |rates| ==> rates[i] == rates[1..][i - 1];
    }
  }

  /** Edges of the same rate get the same colour, however far apart. */
  lemma SameRateSameColor(cm: ColorMap, rates: seq<nat>, i: nat, j: nat)
    requires |cm.colors| > 0 && i < |rates| && j < |rates| && rates[i] == rates[j]
    ensures Colors(cm, rates).1[i] == Colors(cm, rates).1[j]
  {
    ColorsLookup(cm, rates);
  }

  /** The rates `rates`, all different, met by a fresh map: the `i`-th one
      gets colour `i % 8 + 1`, so colours repeat only after eight rates. */
  lemma {:induction false} DistinctRatesCycle(cm: ColorMap, rates: seq<nat>)
    requires Rotated(cm.colors, |cm.lookup|)
    requires forall i, j :: 0 <= i < j < |rates| ==> rates[i] != rates[j]
    requires forall i :: 0 <= i < |rates| ==> rates[i] !in cm.lookup
    ensures forall i :: 0 <= i < |rates| ==> Colors(cm, rates).1[i] == (|cm.lookup| + i) % PaletteSize + 1
    decreases |rates|
  {
    if |rates| > 0 {
      var cm1, c := ColorsStep(cm, rates);
      var rest := Colors(cm1, rates[1..]).1;
      assert Rotated(cm1.colors, |cm1.lookup|) && |cm1.lookup| == |cm.lookup| + 1
        && c == |cm.lookup| % PaletteSize + 1 by {
        GetRotated(cm, rates[0]);
      }
      assert forall i :: 0 <= i < |rates| - 1 ==> rest[i] == (|cm1.lookup| + i) % PaletteSize + 1 by {
        assert forall i :: 0 <= i < |rates[1..]| ==> rates[1..][i] !in cm1.lookup;
        DistinctRatesCycle(cm1, rates[1..]);
      }
      ShiftColors(Colors(cm, rates).1, c, rest, |cm.lookup|, |cm1.lookup|);
    }
  }

  /** Colours handed out from offset `n + 1` on, after one at offset `n`. */
  lemma ShiftColors(cs: seq<nat>, c: nat, rest: seq<nat>, n: nat, n1: nat)
    requires cs == [c] + rest && c == n % PaletteSize + 1 && n1 == n + 1
    requires forall i :: 0 <= i < |rest| ==> rest[i] == (n1 + i) % PaletteSize + 1
    ensures forall i :: 0 <= i < |cs| ==> cs[i] == (n + i) % PaletteSize + 1
  {
    forall i | 0 < i < |cs|
      ensures cs[i] == (n + i) % PaletteSize + 1
    {
      assert cs[i] == rest[i - 1] && n1 + (i - 1) == n + i;
    }
  }

  /** The first rate of a run takes the colour `Get` gives it, and the rest
      take theirs from the map it leaves. */
  lemma ColorsStep(cm: ColorMap, rates: seq<nat>) returns (cm1: ColorMap, c: nat)
    requires |cm.colors| > 0 && |rates| > 0
    ensures (cm1, c) == Get(cm, rates[0]) && |cm1.colors| > 0
    ensures Colors(cm, rates).1 == [c] + Colors(cm1, rates[1..]).1
  {
    cm1, c := Get(cm, rates[0]).0, Get(cm, rates[0]).1;
  }

  /** From a fresh map, the first eight distinct rates take colours 1 to 8. */
  lemma FreshColors(rates: seq<nat>)
    requires forall i, j :: 0 <= i < j < |rates| ==> rates[i] != rates[j]
    ensures forall i :: 0 <= i < |rates| ==> Colors(NewColorMap(), rates).1[i] == i % PaletteSize + 1
  {
    NewColorMapEmpty();
    EmptyMapColors(NewColorMap(), rates);
  }

  lemma NewColorMapEmpty()
    ensures Valid(NewColorMap()) && |NewColorMap().lookup| == 0
  {
    var cm := NewColorMap();
    forall j | 0 <= j < |cm.colors|
      ensures cm.colors[j] == (|cm.lookup| + j) % PaletteSize + 1
    {
      assert |cm.lookup| + j == j < PaletteSize;
    }
  }

  lemma EmptyMapColors(cm: ColorMap, rates: seq<nat>)
    requires Valid(cm) && |cm.lookup| == 0
    requires forall i, j :: 0 <= i < j < |rates| ==> rates[i] != rates[j]
    ensures forall i :: 0 <= i < |rates| ==> Colors(cm, rates).1[i] == i % PaletteSize + 1
  {
    DistinctRatesCycle(cm, rates);
  }

  /** An actor of the flowchart, as far as its node is concerned. */
  datatype PlainActor = PlainActor(client: string, inputRates: seq<nat>, outputRates: seq<nat>)

  /** `Graph::new`: the chart keeps its name and lists the actors with their
      client names trimmed (the node hashes are left out). */
  datatype Chart = Chart(name: string, actors: seq<PlainActor>)

  function NewGraph(name: string, actors: seq<PlainActor>): (g: Chart)
    ensures g.name == name && |g.actors| == |actors|
    ensures forall k :: 0 <= k < |actors| ==>
      && g.actors[k].client == TypeNames.Trim(actors[k].client)
      && g.actors[k].inputRates == actors[k].inputRates
      && g.actors[k].outputRates == actors[k].outputRates
  {
    Chart(name, seq(|actors|, k requires 0 <= k < |actors| =>
      actors[k].(client := TypeNames.Trim(actors[k].client))))
  }

  /** Plain client names come out without any module path, and charting a
      chart again changes nothing. */
  lemma NewGraphPlain(name: string, actors: seq<PlainActor>)
    requires forall k :: 0 <= k < |actors| ==> '<' !in actors[k].client
    ensures forall k, j :: 0 <= k < |actors| && 0 <= j < |NewGraph(name, actors).actors[k].client| ==>
      !TypeNames.SepAt(NewGraph(name, actors).actors[k].client, j)
    ensures NewGraph(name, NewGraph(name, actors).actors) == NewGraph(name, actors)
  {
    var g := NewGraph(name, actors);
    forall k | 0 <= k < |actors|
      ensures TypeNames.Trim(g.actors[k].client) == g.actors[k].client
    {
      TypeNames.TrimPlainIdempotent(actors[k].client);
    }
    assert NewGraph(name, g.actors).actors == g.actors;
  }
}
