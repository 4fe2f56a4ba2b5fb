/** Scope regions of a text: folding a flat list of header and closer markers into nested regions, and back. */
module RegionNesting {

  datatype Region = Region(header: nat, closer: nat, children: seq<Region>)

  datatype Marker = Marker(line: nat, isHeader: bool)

  function Flat(region: Region): seq<Marker> {
    [Marker(region.header, true)] + Flatten(region.children) + [Marker(region.closer, false)]
  }

  function Flatten(regions: seq<Region>): seq<Marker> {
    if regions == [] then [] else Flat(regions[0]) + Flatten(regions[1..])
  }

  /** Regions folded from a position on, and where folding stopped. */
  datatype Nested = Nested(regions: seq<Region>, index: nat)

  function Nest(markers: seq<Marker>, start: nat): (nested: Nested)
    requires start <= |markers|
    ensures start <= nested.index <= |markers|
    decreases |markers| - start
  {
    if start == |markers| || !markers[start].isHeader then Nested([], start)
    else
      var inner := Nest(markers, start + 1);
      if inner.index == |markers| then Nested([], inner.index)
      else
        var rest := Nest(markers, inner.index + 1);
        Nested([Region(markers[start].line, markers[inner.index].line, inner.regions)] + rest.regions, rest.index)
  }

  /** What is left to fold completes what has been folded. */
  ghost predicate Continues(markers: seq<Marker>, start: nat, index: nat, regions: seq<Region>)
    requires start <= index <= |markers|
  {
    Nest(markers, start) == Nested(regions + Nest(markers, index).regions, Nest(markers, index).index)
  }

  lemma ContinuesWith(markers: seq<Marker>, start: nat, index: nat, regions: seq<Region>)
    requires start <= index < |markers| && Continues(markers, start, index, regions) && markers[index].isHeader
    ensures var inner := Nest(markers, index + 1);
            if inner.index == |markers| then Nest(markers, start) == Nested(regions, |markers|)
            else Continues(markers, start, inner.index + 1, regions + [Region(markers[index].line, markers[inner.index].line, inner.regions)])
  {
    var inner := Nest(markers, index + 1);
    if inner.index < |markers| {
      var region := Region(markers[index].line, markers[inner.index].line, inner.regions);
      var rest := Nest(markers, inner.index + 1).regions;
      assert regions + ([region] + rest) == (regions + [region]) + rest;
    } else {
      assert regions + [] == regions;
    }
  }

  /** Whether folding from a position stops at a closer or the end, not in a region left open. */
  predicate Stops(markers: seq<Marker>, i: nat)
    requires i <= |markers|
  {
    i == |markers| || !markers[i].isHeader
  }

  lemma ContinuesFirst(markers: seq<Marker>, start: nat)
    requires start <= |markers|
    ensures Continues(markers, start, start, [])
  {
    assert [] + Nest(markers, start).regions == Nest(markers, start).regions;
  }

  lemma ContinuesLast(markers: seq<Marker>, start: nat, index: nat, regions: seq<Region>)
    requires start <= index <= |markers| && Continues(markers, start, index, regions) && Stops(markers, index)
    ensures Nest(markers, start) == Nested(regions, index)
  {
    assert regions + [] == regions;
  }

  /** Fold a flat header and closer list into regions from a position onward. */
  method NestMarkers(markers: seq<Marker>, start: nat) returns (regions: seq<Region>, index: nat)
    requires start <= |markers|
    ensures Nested(regions, index) == Nest(markers, start)
    decreases |markers| - start
  {
    hide Nest, Continues;
    regions := [];
    index := start;
    ContinuesFirst(markers, start);
    while index < |markers|
      invariant start <= index <= |markers| && Continues(markers, start, index, regions)
      decreases |markers| - index
    {
      var marker := markers[index];
      if !marker.isHeader {
        ContinuesLast(markers, start, index, regions);
        return regions, index;
      }
      ContinuesWith(markers, start, index, regions);
      var children;
      children, index := NestMarkers(markers, index + 1);
      if index >= |markers| {
        return regions, index;
      }
      regions := regions + [Region(marker.line, markers[index].line, children)];
      index := index + 1;
    }
    ContinuesLast(markers, start, index, regions);
  }

  ghost predicate HasAt(markers: seq<Marker>, n: nat, part: seq<Marker>) {
    n + |part| <= |markers| && forall i :: 0 <= i < |part| ==> markers[n + i] == part[i]
  }

  lemma HasParts(markers: seq<Marker>, n: nat, a: seq<Marker>, b: seq<Marker>)
    requires HasAt(markers, n, a + b)
    ensures HasAt(markers, n, a) && HasAt(markers, n + |a|, b)
  {
    forall i | 0 <= i < |a|
      ensures markers[n + i] == a[i]
    {
      assert (a + b)[i] == a[i];
    }
    forall i | 0 <= i < |b|
      ensures markers[n + |a| + i] == b[i]
    {
      assert markers[n + (|a| + i)] == (a + b)[|a| + i] == b[i];
    }
  }

  lemma FirstParts(markers: seq<Marker>, n: nat, regions: seq<Region>)
    returns (m: nat)
    requires regions != [] && HasAt(markers, n, Flatten(regions))
    ensures m == n + 1 + |Flatten(regions[0].children)| && m + 1 + |Flatten(regions[1..])| == n + |Flatten(regions)| <= |markers|
    ensures markers[n] == Marker(regions[0].header, true) && markers[m] == Marker(regions[0].closer, false)
    ensures HasAt(markers, n + 1, Flatten(regions[0].children)) && HasAt(markers, m + 1, Flatten(regions[1..]))
  {
    var h, c := [Marker(regions[0].header, true)], [Marker(regions[0].closer, false)];
    var inside, rest := Flatten(regions[0].children), Flatten(regions[1..]);
    m := n + 1 + |inside|;
    assert Flatten(regions) == (h + inside + c) + rest;
    HasParts(markers, n, h + inside + c, rest);
    HasParts(markers, n, h + inside, c);
    HasParts(markers, n, h, inside);
    assert markers[n + 0] == h[0] && markers[m + 0] == c[0];
  }

  lemma NestFirst(markers: seq<Marker>, n: nat, region: Region, m: nat, rest: seq<Region>, end: nat)
    requires n < m < |markers| && markers[n] == Marker(region.header, true) && markers[m] == Marker(region.closer, false)
    requires Nest(markers, n + 1) == Nested(region.children, m) && Nest(markers, m + 1) == Nested(rest, end)
    ensures Nest(markers, n) == Nested([region] + rest, end)
  {
  }

  /** Folding undoes flattening, wherever the flattened regions stand. */
  lemma {:induction false} NestOfFlatten(markers: seq<Marker>, n: nat, regions: seq<Region>)
    requires HasAt(markers, n, Flatten(regions)) && Stops(markers, n + |Flatten(regions)|)
    ensures Nest(markers, n) == Nested(regions, n + |Flatten(regions)|)
    decreases regions
  {
    if regions != [] {
      var m := FirstParts(markers, n, regions);
      NestOfFlatten(markers, n + 1, regions[0].children);
      NestOfFlatten(markers, m + 1, regions[1..]);
      NestFirst(markers, n, regions[0], m, regions[1..], n + |Flatten(regions)|);
      assert [regions[0]] + regions[1..] == regions;
    }
  }

  /** Every list of nested regions is what folding makes of its markers. */
  lemma NestInvertsFlatten(regions: seq<Region>)
    ensures Nest(Flatten(regions), 0) == Nested(regions, |Flatten(regions)|)
  {
    NestOfFlatten(Flatten(regions), 0, regions);
  }

  /** What folding has gone over: all up to where it stopped, or up to a region that is never closed. */
  ghost predicate GoneOver(markers: seq<Marker>, start: nat, nested: Nested, upTo: nat)
    requires start <= nested.index <= |markers|
  {
    && start <= upTo <= nested.index && markers[start..upTo] == Flatten(nested.regions)
    && if Stops(markers, nested.index) && upTo == nested.index then true else upTo < nested.index == |markers| && markers[upTo].isHeader
  }

  lemma GoneOverRegion(markers: seq<Marker>, start: nat, inner: Nested, rest: Nested, upTo: nat)
    requires start < |markers| && markers[start].isHeader && start + 1 <= inner.index < |markers| && !markers[inner.index].isHeader
    requires markers[start + 1..inner.index] == Flatten(inner.regions)
    requires inner.index + 1 <= rest.index <= |markers| && GoneOver(markers, inner.index + 1, rest, upTo)
    ensures var region := Region(markers[start].line, markers[inner.index].line, inner.regions);
            GoneOver(markers, start, Nested([region] + rest.regions, rest.index), upTo)
  {
    var region := Region(markers[start].line, markers[inner.index].line, inner.regions);
    assert ([region] + rest.regions)[1..] == rest.regions;
    assert markers[start..upTo]
        == [markers[start]] + markers[start + 1..inner.index] + [markers[inner.index]] + markers[inner.index + 1..upTo];
    assert Flatten([region] + rest.regions) == Flat(region) + Flatten(rest.regions);
  }

  lemma GoneOverWhole(markers: seq<Marker>, start: nat, nested: Nested, upTo: nat)
    requires start <= nested.index < |markers| && GoneOver(markers, start, nested, upTo)
    ensures !markers[nested.index].isHeader && markers[start..nested.index] == Flatten(nested.regions)
  {
    hide Flatten;
  }

  lemma GoneOverNothing(markers: seq<Marker>, start: nat)
    requires start <= |markers|
    ensures GoneOver(markers, start, Nested([], if Stops(markers, start) then start else |markers|), start)
  {
  }

  /** Conversely, what folding has gone over is its regions flattened, unless it came to the end inside a
      region that is never closed. */
  lemma {:induction false} FlattenOfNest(markers: seq<Marker>, start: nat)
    returns (upTo: nat)
    requires start <= |markers|
    ensures GoneOver(markers, start, Nest(markers, start), upTo)
    decreases |markers| - start
  {
    hide Flatten, GoneOver;
    upTo := start;
    GoneOverNothing(markers, start);
    if start < |markers| && markers[start].isHeader {
      var inner := Nest(markers, start + 1);
      var innerUpTo := FlattenOfNest(markers, start + 1);
      if inner.index < |markers| {
        assert GoneOver(markers, start + 1, inner, innerUpTo);
        GoneOverWhole(markers, start + 1, inner, innerUpTo);
        upTo := FlattenOfNest(markers, inner.index + 1);
        GoneOverRegion(markers, start, inner, Nest(markers, inner.index + 1), upTo);
      }
    }
  }

  // ----- Layout -----

  /** Regions one after the other between two lines, each with its children between its own; or, if it opens and
      closes on one line, with its children on that line. */
  ghost predicate WellNested(regions: seq<Region>, lo: nat, hi: nat) {
    regions == [] || (lo <= regions[0].header && regions[0].closer < hi && Proper(regions[0]) && WellNested(regions[1..], regions[0].closer + 1, hi))
  }

  ghost predicate Proper(r: Region) {
    if r.header < r.closer then WellNested(r.children, r.header + 1, r.closer) else r.header == r.closer && OneLine(r.children, r.header)
  }

  /** Regions that open and close on one line, however deep. */
  ghost predicate OneLine(regions: seq<Region>, line: nat) {
    forall k :: 0 <= k < |regions| ==> regions[k].header == line == regions[k].closer && OneLine(regions[k].children, line)
  }

  ghost predicate Increasing(markers: seq<Marker>) {
    forall i, j :: 0 <= i < j < |markers| ==> markers[i].line < markers[j].line
  }

  ghost predicate Between(markers: seq<Marker>, lo: nat, hi: nat) {
    forall i :: 0 <= i < |markers| ==> lo <= markers[i].line < hi
  }

  lemma FourParts<T>(h: T, inside: seq<T>, c: T, rest: seq<T>)
    ensures var all, n := [h] + inside + [c] + rest, |inside|;
            n + 2 <= |all| && all[0] == h && all[n + 1] == c && all[1..n + 1] == inside && all[n + 2..] == rest
  {
  }

  lemma PartsOf(regions: seq<Region>)
    requires regions != []
    ensures var first, all := regions[0], Flatten(regions);
            var n := |Flatten(first.children)|;
            && n + 2 <= |all| && all[0].line == first.header && all[n + 1].line == first.closer
            && all[1..n + 1] == Flatten(first.children) && all[n + 2..] == Flatten(regions[1..])
  {
    var first := regions[0];
    var h, c := Marker(first.header, true), Marker(first.closer, false);
    assert Flatten(regions) == [h] + Flatten(first.children) + [c] + Flatten(regions[1..]);
    FourParts(h, Flatten(first.children), c, Flatten(regions[1..]));
    hide Flatten;
  }

  /** Markers on lines of their own, in order, fold into well-nested regions. */
  lemma {:induction false} IncreasingIsWellNested(regions: seq<Region>, lo: nat, hi: nat)
    requires Increasing(Flatten(regions)) && Between(Flatten(regions), lo, hi)
    ensures WellNested(regions, lo, hi)
    decreases regions
  {
    hide Flatten;
    if regions != [] {
      var first := regions[0];
      PartsOf(regions);
      IncreasingIsWellNested(first.children, first.header + 1, first.closer);
      IncreasingIsWellNested(regions[1..], first.closer + 1, hi);
    }
  }
}
