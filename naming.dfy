/** The naming resolver: the `nameFunc` closure built by `GoTypesFromCUE`, which names a
    type found at `definitionPath` relative to the path of the node being generated. */
module Naming {
  import opened Strings
  import opened CuePaths

  /** The syntactic markers trimmed from both ends of a resolved name. */
  const Markers: set<char> := {'?', '#'}

  /** The value the closure's counter `i` has when the loop ends, counting from `k`. */
  function MatchFrom(definitionPath: seq<Selector>, nodePath: seq<Selector>, maxNamingDepth: int, k: nat): nat
    requires k <= |definitionPath| && k <= |nodePath|
    decreases |definitionPath| - k
  {
    if k < |definitionPath| && k < |nodePath|
       && !(maxNamingDepth > 0 && k >= maxNamingDepth)
       && SelEq(definitionPath[k], nodePath[k])
    then MatchFrom(definitionPath, nodePath, maxNamingDepth, k + 1)
    else k
  }

  /** How many leading selectors the definition path shares with the node path,
      capped by `maxNamingDepth` when that is positive. */
  function MatchedCount(definitionPath: seq<Selector>, nodePath: seq<Selector>, maxNamingDepth: int): (i: nat)
    ensures i <= |definitionPath| && i <= |nodePath|
    ensures maxNamingDepth > 0 ==> i <= maxNamingDepth
  {
    MatchFromBounds(definitionPath, nodePath, maxNamingDepth, 0);
    MatchFrom(definitionPath, nodePath, maxNamingDepth, 0)
  }

  lemma {:induction false} MatchFromBounds(definitionPath: seq<Selector>, nodePath: seq<Selector>, maxNamingDepth: int, k: nat)
    requires k <= |definitionPath| && k <= |nodePath|
    requires maxNamingDepth > 0 ==> k <= maxNamingDepth
    requires forall j :: 0 <= j < k ==> definitionPath[j] == nodePath[j]
    ensures var i := MatchFrom(definitionPath, nodePath, maxNamingDepth, k);
      && k <= i <= |definitionPath| && i <= |nodePath|
      && (maxNamingDepth > 0 ==> i <= maxNamingDepth)
      && (forall j :: 0 <= j < i ==> definitionPath[j] == nodePath[j])
      && (i == |definitionPath| || i == |nodePath| || (maxNamingDepth > 0 && i == maxNamingDepth)
          || definitionPath[i] != nodePath[i])
    decreases |definitionPath| - k
  {
    if k < |definitionPath| && k < |nodePath|
       && !(maxNamingDepth > 0 && k >= maxNamingDepth)
       && SelEq(definitionPath[k], nodePath[k])
    {
      MatchFromBounds(definitionPath, nodePath, maxNamingDepth, k + 1);
    }
  }

  /** The matched count is bounded by both paths and by a positive cap, the two paths
      agree below it, and it stops only at the end of a path, at the cap, or at the
      first differing selector: these facts determine it. */
  lemma MatchedCountCharacterized(definitionPath: seq<Selector>, nodePath: seq<Selector>, maxNamingDepth: int)
    ensures var i := MatchedCount(definitionPath, nodePath, maxNamingDepth);
      && i <= |definitionPath| && i <= |nodePath|
      && (maxNamingDepth > 0 ==> i <= maxNamingDepth)
      && (forall j :: 0 <= j < i ==> definitionPath[j] == nodePath[j])
      && (i == |definitionPath| || i == |nodePath| || (maxNamingDepth > 0 && i == maxNamingDepth)
          || definitionPath[i] != nodePath[i])
  {
    MatchFromBounds(definitionPath, nodePath, maxNamingDepth, 0);
  }

  /** The name `nameFunc` returns: the rendering of what is left of the definition path
      once the matched selectors are dropped, with `?` and `#` trimmed from both ends. */
  function ResolvedName(definitionPath: seq<Selector>, nodePath: seq<Selector>, maxNamingDepth: int): (name: string)
    ensures name != [] ==> name[0] !in Markers && name[|name| - 1] !in Markers
    ensures var rendered := PathString(definitionPath[MatchedCount(definitionPath, nodePath, maxNamingDepth)..]);
      |name| <= |rendered|
      && (forall j :: 0 <= j < |rendered| && rendered[j] !in Markers ==> |name| > 0)
  {
    var i := MatchedCount(definitionPath, nodePath, maxNamingDepth);
    Trim(PathString(definitionPath[i..]), Markers)
  }

  /** A resolved name never starts or ends with a marker, and it is the trimmed rendering
      of the definition path without its matched prefix (the whole path when nothing matched). */
  lemma ResolvedNameShape(definitionPath: seq<Selector>, nodePath: seq<Selector>, maxNamingDepth: int)
    ensures var name := ResolvedName(definitionPath, nodePath, maxNamingDepth);
      && (name != [] ==> name[0] !in Markers && name[|name| - 1] !in Markers)
      && (MatchedCount(definitionPath, nodePath, maxNamingDepth) == 0 ==> name == Trim(PathString(definitionPath), Markers))
  {
    assert definitionPath[0..] == definitionPath;
  }

  /** When the definition path runs through the whole node path, the closure matches the
      whole node path, or exactly `maxNamingDepth` selectors when that cap is positive and
      shorter. A cap of 0 or less is no cap. */
  lemma MatchedAlongPrefix(definitionPath: seq<Selector>, nodePath: seq<Selector>, maxNamingDepth: int)
    requires IsPrefix(nodePath, definitionPath)
    ensures MatchedCount(definitionPath, nodePath, maxNamingDepth)
      == if 0 < maxNamingDepth < |nodePath| then maxNamingDepth else |nodePath|
  {
    MatchedCountCharacterized(definitionPath, nodePath, maxNamingDepth);
    var i := MatchedCount(definitionPath, nodePath, maxNamingDepth);
    if i < |nodePath| {
      assert definitionPath[..|nodePath|][i] == definitionPath[i];
    }
  }

  /** A string with no marker at either end is left alone by trimming. */
  lemma TrimUnmarked(s: string)
    requires s != [] && s[0] !in Markers && s[|s| - 1] !in Markers
    ensures Trim(s, Markers) == s
  {
    assert TrimLeft(s, Markers) == s;
    assert TrimRight(s, Markers) == s;
  }

  /** The name the closure would give if a cap of 0 or less matched nothing, instead of
      meaning "no cap": a positive cap behaves as in `ResolvedName`, any other cap keeps
      the whole definition path. */
  function IntendedResolvedName(definitionPath: seq<Selector>, nodePath: seq<Selector>, maxNamingDepth: int): (name: string)
    ensures name != [] ==> name[0] !in Markers && name[|name| - 1] !in Markers
    ensures maxNamingDepth <= 0 ==> name == Trim(PathString(definitionPath), Markers)
  {
    var i := if maxNamingDepth > 0 then MatchedCount(definitionPath, nodePath, maxNamingDepth) else 0;
    assert definitionPath[0..] == definitionPath;
    Trim(PathString(definitionPath[i..]), Markers)
  }

  /** The correction changes nothing for a positive cap. */
  lemma IntendedAgreesWhenCapped(definitionPath: seq<Selector>, nodePath: seq<Selector>, maxNamingDepth: int)
    requires maxNamingDepth > 0
    ensures IntendedResolvedName(definitionPath, nodePath, maxNamingDepth) == ResolvedName(definitionPath, nodePath, maxNamingDepth)
  {
  }

  /** The closure along the node path: the name is the trimmed rendering of the
      definition path after the whole node path, or after the first `maxNamingDepth`
      selectors when that cap is positive and shorter. */
  lemma ResolvedAlongPrefix(definitionPath: seq<Selector>, nodePath: seq<Selector>, maxNamingDepth: int, dropped: nat)
    requires IsPrefix(nodePath, definitionPath)
    requires dropped == if 0 < maxNamingDepth < |nodePath| then maxNamingDepth else |nodePath|
    ensures dropped <= |definitionPath|
    ensures ResolvedName(definitionPath, nodePath, maxNamingDepth) == Trim(PathString(definitionPath[dropped..]), Markers)
  {
    MatchedAlongPrefix(definitionPath, nodePath, maxNamingDepth);
  }

  /** The corrected closure along the node path: it drops the whole node path, or the
      first `maxNamingDepth` selectors when that is shorter, and nothing for a cap of 0
      or less. */
  lemma IntendedAlongPrefix(definitionPath: seq<Selector>, nodePath: seq<Selector>, maxNamingDepth: int, dropped: nat)
    requires IsPrefix(nodePath, definitionPath)
    requires dropped == if maxNamingDepth <= 0 then 0 else if maxNamingDepth < |nodePath| then maxNamingDepth else |nodePath|
    ensures dropped <= |definitionPath|
    ensures IntendedResolvedName(definitionPath, nodePath, maxNamingDepth) == Trim(PathString(definitionPath[dropped..]), Markers)
  {
    if maxNamingDepth > 0 {
      MatchedAlongPrefix(definitionPath, nodePath, maxNamingDepth);
    } else {
      assert definitionPath[0..] == definitionPath;
    }
  }

  /** The renderings of `Foo` and `spec.Foo`. */
  lemma SpecFooRenderings()
    ensures PathString([Regular("Foo")]) == "Foo"
    ensures PathString([Regular("spec"), Regular("Foo")]) == "spec.Foo"
  {
    assert SelectorStrings([Regular("Foo")]) == ["Foo"];
    assert SelectorStrings([Regular("spec"), Regular("Foo")]) == ["spec", "Foo"];
    assert ["spec", "Foo"][1..] == ["Foo"];
  }

  /** A cap of 0 switches the cap off: node `spec`, definition `spec.Foo` and cap 0 give
      `Foo`, where a cap of 0 taken literally keeps `spec.Foo`. */
  lemma ZeroCapExample()
    ensures ResolvedName([Regular("spec"), Regular("Foo")], [Regular("spec")], 0) == "Foo"
    ensures IntendedResolvedName([Regular("spec"), Regular("Foo")], [Regular("spec")], 0) == "spec.Foo"
  {
    var d := [Regular("spec"), Regular("Foo")];
    MatchedAlongPrefix(d, [Regular("spec")], 0);
    assert d[1..] == [Regular("Foo")];
    SpecFooRenderings();
    TrimUnmarked("Foo");
    TrimUnmarked("spec.Foo");
  }

  /** The `nameFunc` closure, with its counting loop and early exits. */
  method ResolveName(definitionPath: seq<Selector>, nodePath: seq<Selector>, maxNamingDepth: int) returns (name: string)
    ensures name == ResolvedName(definitionPath, nodePath, maxNamingDepth)
  {
    var i := 0;
    while i < |definitionPath| && i < |nodePath|
      invariant i <= |definitionPath| && i <= |nodePath|
      invariant MatchFrom(definitionPath, nodePath, maxNamingDepth, i) == MatchedCount(definitionPath, nodePath, maxNamingDepth)
    {
      if maxNamingDepth > 0 && i >= maxNamingDepth {
        break;
      }
      if !SelEq(definitionPath[i], nodePath[i]) {
        break;
      }
      i := i + 1;
    }
    var rest := definitionPath;
    if i > 0 {
      rest := definitionPath[i..];
    }
    name := Trim(PathString(rest), Markers);
  }

  /** Root `a.b`, definition `a.b.c.d`, cap 2: the name is `c.d`. */
  lemma TruncationExample()
    ensures ResolvedName([Regular("a"), Regular("b"), Regular("c"), Regular("d")], [Regular("a"), Regular("b")], 2) == "c.d"
  {
    var d := [Regular("a"), Regular("b"), Regular("c"), Regular("d")];
    var n := [Regular("a"), Regular("b")];
    assert MatchFrom(d, n, 2, 2) == 2;
    assert MatchFrom(d, n, 2, 1) == 2;
    assert MatchedCount(d, n, 2) == 2;
    assert d[2..] == [Regular("c"), Regular("d")];
    assert SelectorStrings(d[2..]) == ["c", "d"];
    assert ["c", "d"][1..] == ["d"];
    assert Join(["c", "d"], ".") == "c" + "." + "d";
    assert PathString(d[2..]) == "c.d";
    assert "c.d"[0] == 'c' && 'c' !in Markers;
    assert TrimLeft("c.d", Markers) == "c.d";
    assert "c.d"[2] == 'd' && 'd' !in Markers;
    assert TrimRight("c.d", Markers) == "c.d";
  }
}
