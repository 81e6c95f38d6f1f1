/**
 Shortening of Rust type names for display: `trim` drops the module path
 of a name and of each of its generic arguments, so that
 `a::b::print<w::W,q::s::C>` is shown as `print<W,C>`.
 */
module TypeNames {
  import opened Common

  /** The first position of `c` in `s` (`split_once(c)`). */
  function IndexOf(s: string, c: char): (r: Option<nat>)
    ensures r.None? <==> c !in s
    ensures r.Some? ==> r.value < |s| && s[r.value] == c && c !in s[..r.value]
  {
    if |s| == 0 then None
    else if s[0] == c then Some(0)
    else
      var p := IndexOf(s[1..], c);
      if p.None? then None
      else
        assert s[..p.value + 1] == [s[0]] + s[1..][..p.value];
        Some(p.value + 1)
  }

  /** `s` holds the path separator `::` at position `j`. */
  predicate SepAt(s: string, j: int) {
    0 <= j && j + 1 < |s| && s[j] == ':' && s[j + 1] == ':'
  }

  /** The last position of `::` in `s` (`rsplit_once("::")`). */
  function LastSep(s: string): (r: Option<nat>)
    ensures r.None? ==> forall j :: 0 <= j < |s| ==> !SepAt(s, j)
    ensures r.Some? ==> SepAt(s, r.value) && forall j :: r.value < j < |s| ==> !SepAt(s, j)
    decreases |s|
  {
    if |s| < 2 then None
    else if s[|s| - 2] == ':' && s[|s| - 1] == ':' then Some(|s| - 2)
    else
      var r := LastSep(s[..|s| - 1]);
      assert forall j :: 0 <= j < |s| - 2 ==> (SepAt(s, j) <==> SepAt(s[..|s| - 1], j));
      r
  }

  /** `split(sep)`: the pieces between the separators. */
  function Split(s: string, sep: char): (r: seq<string>)
    ensures |r| >= 1
    ensures forall k :: 0 <= k < |r| ==> |r[k]| <= |s| && sep !in r[k]
    decreases |s|
  {
    match IndexOf(s, sep)
    case None => [s]
    case Some(i) => [s[..i]] + Split(s[i + 1..], sep)
  }

  /** `join(sep)` */
  function Join(pieces: seq<string>, sep: char): (r: string)
    requires |pieces| >= 1
    ensures |pieces[0]| <= |r| && r[..|pieces[0]|] == pieces[0]
    ensures |pieces| > 1 ==> |pieces[0]| < |r| && r[|pieces[0]|] == sep
    ensures |r| >= |pieces| - 1
  {
    if |pieces| == 1 then pieces[0] else pieces[0] + [sep] + Join(pieces[1..], sep)
  }

  /** The first separator of `a + [c] + b` is the one after `a` when `a`
      holds none. */
  lemma IndexOfJoined(a: string, c: char, b: string)
    requires c !in a
    ensures IndexOf(a + [c] + b, c) == Some(|a|)
  {
    var s := a + [c] + b;
    assert s[|a|] == c;
  }

  /** Splitting pieces that hold no separator, once joined, gives the pieces
      back: with `JoinSplit`, `split` and `join` are inverse. */
  lemma {:induction false} SplitJoin(pieces: seq<string>, sep: char)
    requires |pieces| >= 1
    requires forall k :: 0 <= k < |pieces| ==> sep !in pieces[k]
    ensures Split(Join(pieces, sep), sep) == pieces
    decreases |pieces|
  {
    var s := Join(pieces, sep);
    if |pieces| == 1 {
      assert IndexOf(s, sep).None?;
    } else {
      var rest := Join(pieces[1..], sep);
      assert s == pieces[0] + [sep] + rest;
      IndexOfJoined(pieces[0], sep, rest);
      assert s[..|pieces[0]|] == pieces[0] && s[|pieces[0]| + 1..] == rest;
      SplitJoin(pieces[1..], sep);
      assert Split(s, sep) == [pieces[0]] + Split(rest, sep);
      assert pieces == [pieces[0]] + pieces[1..];
    }
  }

  /** Joining the pieces of a split gives the text back. */
  lemma {:induction false} JoinSplit(s: string, sep: char)
    ensures Join(Split(s, sep), sep) == s
    decreases |s|
  {
    match IndexOf(s, sep)
    case None =>
    case Some(i) =>
      JoinSplit(s[i + 1..], sep);
      var r := Split(s, sep);
      assert r[1..] == Split(s[i + 1..], sep);
      assert s[..i] + [sep] + s[i + 1..] == s;
  }

  /** `trim(name)`: a name with generics keeps `<` and trims its prefix and
      each comma-separated piece after it; a plain name loses everything up
      to its last `::`. */
  function Trim(name: string): (r: string)
    ensures '<' !in name ==> r == (if LastSep(name).Some? then name[LastSep(name).value + 2..] else name)
    ensures '<' !in name ==> forall j :: 0 <= j < |r| ==> !SepAt(r, j)
    decreases |name|
  {
    match IndexOf(name, '<')
    case None =>
      (match LastSep(name)
       case None => name
       case Some(i) =>
         var r := name[i + 2..];
         assert forall j :: 0 <= j < |r| ==> (SepAt(r, j) ==> SepAt(name, j + i + 2));
         r)
    case Some(i) =>
      var prefix, suffix := name[..i], name[i + 1..];
      var pieces := Split(suffix, ',');
      Trim(prefix) + "<" + Join(seq(|pieces|, k requires 0 <= k < |pieces| => Trim(pieces[k])), ',')
  }

  /** Trimming a plain name twice is trimming it once. */
  lemma TrimPlainIdempotent(name: string)
    requires '<' !in name
    ensures '<' !in Trim(name)
    ensures Trim(Trim(name)) == Trim(name)
  {
    var r := Trim(name);
    assert forall c :: c in r ==> c in name;
    assert LastSep(r).None?;
  }

  /** Occurrences of `c` in `s`. */
  function Count(s: string, c: char): nat {
    if |s| == 0 then 0 else (if s[0] == c then 1 else 0) + Count(s[1..], c)
  }

  lemma {:induction false} CountAppend(a: string, b: string, c: char)
    ensures Count(a + b, c) == Count(a, c) + Count(b, c)
  {
    if |a| > 0 {
      assert (a + b)[1..] == a[1..] + b;
      CountAppend(a[1..], b, c);
    } else {
      assert a + b == b;
    }
  }

  lemma {:induction false} CountAbsent(s: string, c: char)
    requires c !in s
    ensures Count(s, c) == 0
  {
    if |s| > 0 {
      CountAbsent(s[1..], c);
    }
  }

  /** The total count of `c` over the pieces. */
  function CountAll(pieces: seq<string>, c: char): nat {
    if |pieces| == 0 then 0 else Count(pieces[0], c) + CountAll(pieces[1..], c)
  }

  lemma {:induction false} CountJoin(pieces: seq<string>, sep: char, c: char)
    requires |pieces| >= 1 && c != sep
    ensures Count(Join(pieces, sep), c) == CountAll(pieces, c)
  {
    if |pieces| > 1 {
      CountJoin(pieces[1..], sep, c);
      CountAppend(pieces[0] + [sep], Join(pieces[1..], sep), c);
      CountAppend(pieces[0], [sep], c);
      assert Count([sep], c) == 0 by {
        assert [sep][1..] == [];
      }
    } else {
      assert pieces[1..] == [];
    }
  }

  /** Trimming keeps every generic bracket: the names have as many `<` before
      and after. */
  lemma {:induction false} TrimKeepsGenerics(name: string)
    ensures Count(Trim(name), '<') == Count(name, '<')
    decreases |name|, 2
  {
    match IndexOf(name, '<')
    case None =>
      CountAbsent(name, '<');
      assert '<' !in Trim(name) by {
        assert forall c :: c in Trim(name) ==> c in name;
      }
      CountAbsent(Trim(name), '<');
    case Some(i) =>
      BracketKeepsGenerics(name, i);
  }

  /** A generic name: its head, then the bracket, then the arguments. */
  lemma {:induction false} BracketKeepsGenerics(name: string, i: nat)
    requires IndexOf(name, '<') == Some(i)
    ensures Count(Trim(name), '<') == Count(name, '<')
    decreases |name|, 1
  {
    var prefix, suffix := name[..i], name[i + 1..];
    var head, args := TrimBracket(name, i);
    TrimKeepsGenerics(prefix);
    CountAbsent(prefix, '<');
    ArgumentsKeepGenerics(suffix);
    CountBracketed(head, args);
    Rejoin(name, i);
    CountBracketed(prefix, suffix);
  }

  lemma Rejoin(s: string, i: nat)
    requires i < |s| && s[i] == '<'
    ensures s == s[..i] + "<" + s[i + 1..]
  {
  }

  /** The trimmed generic name: the trimmed head, the bracket, and the
      trimmed arguments joined again. */
  lemma TrimBracket(name: string, i: nat) returns (head: string, args: string)
    requires IndexOf(name, '<') == Some(i)
    ensures head == Trim(name[..i])
    ensures var pieces := Split(name[i + 1..], ',');
      args == Join(seq(|pieces|, k requires 0 <= k < |pieces| => Trim(pieces[k])), ',')
    ensures Trim(name) == head + "<" + args
  {
    var pieces := Split(name[i + 1..], ',');
    head := Trim(name[..i]);
    args := Join(seq(|pieces|, k requires 0 <= k < |pieces| => Trim(pieces[k])), ',');
  }

  /** The arguments, trimmed one by one and joined again. */
  lemma {:induction false} ArgumentsKeepGenerics(suffix: string)
    ensures var pieces := Split(suffix, ',');
      Count(Join(seq(|pieces|, k requires 0 <= k < |pieces| => Trim(pieces[k])), ','), '<') == Count(suffix, '<')
    decreases |suffix| + 1, 0
  {
    var pieces := Split(suffix, ',');
    var trimmed := seq(|pieces|, k requires 0 <= k < |pieces| => Trim(pieces[k]));
    forall k | 0 <= k < |pieces| ensures Count(trimmed[k], '<') == Count(pieces[k], '<') {
      TrimKeepsGenerics(pieces[k]);
    }
    CountAllPointwise(trimmed, pieces);
    CountJoin(trimmed, ',', '<');
    CountJoin(pieces, ',', '<');
    JoinSplit(suffix, ',');
  }

  lemma CountBracketed(a: string, b: string)
    ensures Count(a + "<" + b, '<') == Count(a, '<') + 1 + Count(b, '<')
  {
    CountAppend(a + "<", b, '<');
    CountAppend(a, "<", '<');
    assert Count("<", '<') == 1;
  }

  lemma {:induction false} CountAllPointwise(a: seq<string>, b: seq<string>)
    requires |a| == |b| && forall k :: 0 <= k < |a| ==> Count(a[k], '<') == Count(b[k], '<')
    ensures CountAll(a, '<') == CountAll(b, '<')
  {
    if |a| > 0 {
      CountAllPointwise(a[1..], b[1..]);
    }
  }

  /** The separator at `j` with none after it is the last one. */
  lemma LastSepAt(s: string, j: nat)
    requires SepAt(s, j) && forall k :: j < k < |s| ==> !SepAt(s, k)
    ensures LastSep(s) == Some(j)
  {
  }

  /** The first `c` is at `i` when `s[i]` is one and none comes before. */
  lemma IndexOfAt(s: string, c: char, i: nat)
    requires i < |s| && s[i] == c && c !in s[..i]
    ensures IndexOf(s, c) == Some(i)
  {
    var r := IndexOf(s, c).value;
    forall k | 0 <= k < i ensures s[k] != c {
      assert s[..i][k] == s[k];
    }
    forall k | 0 <= k < r ensures s[k] != c {
      assert s[..r][k] == s[k];
    }
  }

  /** A plain name loses everything up to its last separator. */
  lemma TrimPlainAt(name: string, j: nat)
    requires '<' !in name && SepAt(name, j) && forall k :: j < k < |name| ==> !SepAt(name, k)
    ensures Trim(name) == name[j + 2..]
  {
    LastSepAt(name, j);
  }

  /** Plain names shown in a flowchart. */
  lemma TrimPlainExamples()
    ensures Trim("print") == "print"
    ensures Trim("a::b::print") == "print"
  {
    var plain, path := "print", "a::b::print";
    assert '<' !in plain && '<' !in path;
    assert LastSep(plain).None?;
    TrimPlainAt(path, 4);
    assert path[6..] == plain;
  }

  /** A generic name shown in a flowchart: the path is dropped from the
      name and from each of its arguments. */
  lemma TrimGenericExample()
    ensures Trim("a::b::print<w::W,q::s::C>") == "print<W,C>"
  {
    GenericExampleParts();
    TrimPlainExamples();
    ArgumentExamples();
    ExampleJoined();
  }

  lemma ExampleJoined()
    ensures "print" + "<" + ("W" + "," + "C>") == "print<W,C>"
  {
  }

  lemma GenericExampleParts()
    ensures Trim("a::b::print<w::W,q::s::C>") == Trim("a::b::print") + "<" + (Trim("w::W") + "," + Trim("q::s::C>"))
  {
    var prefix, suffix := "a::b::print", "w::W,q::s::C>";
    assert "a::b::print<w::W,q::s::C>" == prefix + "<" + suffix;
    assert suffix[..4] == "w::W" && suffix[5..] == "q::s::C>";
    TrimTwoArguments(prefix, suffix, 4);
  }

  /** A name with two generic arguments trims to its trimmed head and its
      two trimmed arguments. */
  lemma TrimTwoArguments(prefix: string, suffix: string, i: nat)
    requires '<' !in prefix && i < |suffix| && suffix[i] == ',' && ',' !in suffix[..i] && ',' !in suffix[i + 1..]
    ensures Trim(prefix + "<" + suffix) == Trim(prefix) + "<" + (Trim(suffix[..i]) + "," + Trim(suffix[i + 1..]))
  {
    TrimArguments(prefix, suffix);
    SplitTwo(suffix, ',', i);
    var a, b := suffix[..i], suffix[i + 1..];
    TrimBoth(a, b);
    assert Join([Trim(a), Trim(b)], ',') == Trim(a) + "," + Trim(b);
  }

  /** Text with one separator splits into the parts before and after it. */
  lemma SplitTwo(s: string, sep: char, i: nat)
    requires i < |s| && s[i] == sep && sep !in s[..i] && sep !in s[i + 1..]
    ensures Split(s, sep) == [s[..i], s[i + 1..]]
  {
    IndexOfAt(s, sep, i);
  }

  lemma TrimBoth(a: string, b: string)
    ensures var pieces := [a, b];
      seq(|pieces|, k requires 0 <= k < |pieces| => Trim(pieces[k])) == [Trim(a), Trim(b)]
  {
  }

  /** A generic name trims to its trimmed head and its trimmed arguments. */
  lemma TrimArguments(prefix: string, suffix: string)
    requires '<' !in prefix
    ensures var pieces := Split(suffix, ',');
      Trim(prefix + "<" + suffix) == Trim(prefix) + "<" + Join(seq(|pieces|, k requires 0 <= k < |pieces| => Trim(pieces[k])), ',')
  {
    var name := prefix + "<" + suffix;
    assert name[..|prefix|] == prefix && name[|prefix| + 1..] == suffix;
    IndexOfAt(name, '<', |prefix|);
    var head, args := TrimBracket(name, |prefix|);
  }

  lemma ArgumentExamples()
    ensures Trim("w::W") == "W" && Trim("q::s::C>") == "C>"
  {
    var first, second := "w::W", "q::s::C>";
    assert '<' !in first && '<' !in second;
    TrimPlainAt(first, 1);
    TrimPlainAt(second, 4);
    assert first[3..] == "W" && second[6..] == "C>";
  }
}
