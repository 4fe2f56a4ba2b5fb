/** Consequences of the layout: bodies stand under their headers, when they are exactly one level in, and that
    a report is made exactly if something was moved. */
module RegionResults {
  import opened Options
  import opened RegionNesting
  import opened RegionIndent
  import opened RegionLayout

  /** Every region with a body has its closer at its header's column and its body at least one level in, at
      every depth. */
  ghost predicate BodiesIn(lines: seq<string>, regions: seq<Region>) {
    Fits(regions, |lines|) && forall k :: 0 <= k < |regions| ==> BodyIn(lines, regions[k])
  }

  ghost predicate BodyIn(lines: seq<string>, r: Region) {
    && FitsOne(r, |lines|)
    && (r.header < r.closer && HasBody(lines, r) ==> IndentOf(lines[r.closer]) == IndentOf(lines[r.header]))
    && (forall i: nat :: InBody(r, i) && i < |lines| && !Blank(lines[i]) ==> IndentOf(lines[i]) >= IndentOf(lines[r.header]) + INDENT_WIDTH)
    && (r.header < r.closer ==> BodiesIn(lines, r.children))
  }

  /** The header of a region in another one is a direct line of that other one. */
  lemma ChildHeaderIsDirect(lines: seq<string>, r: Region, k: nat)
    requires WellNested(r.children, r.header + 1, r.closer) && r.closer < |lines| && Solid(lines, r.children) && k < |r.children|
    ensures Direct(lines, r, r.children[k].header)
  {
    RegionsBetween(r.children, r.header + 1, r.closer, k);
    assert SolidOne(lines, r.children[k]);
  }

  lemma BodyKept(lines: seq<string>, after: seq<string>, r: Region)
    requires KeepsText(lines, after) && r.closer < |lines|
    ensures HasBody(after, r) <==> HasBody(lines, r)
  {
    LeastIndentIs(lines, r.header + 1, r.closer);
    LeastIndentIs(after, r.header + 1, r.closer);
    forall i | r.header + 1 <= i < r.closer
      ensures Blank(after[i]) <==> Blank(lines[i])
    {
      assert SameText(lines[i], after[i]);
    }
  }

  lemma BodyIsBetween(lines: seq<string>, r: Region)
    requires r.closer < |lines| && HasBody(lines, r)
    ensures r.header + 1 < r.closer
  {
  }

  lemma BaseIsLeast(lines: seq<string>, r: Region, i: nat)
    requires r.closer < |lines| && InBody(r, i) && !Blank(lines[i])
    ensures HasBody(lines, r) && Base(lines, r).value <= IndentOf(lines[i])
  {
    LeastIndentIs(lines, r.header + 1, r.closer);
  }

  lemma DirectIsIn(before: seq<string>, after: seq<string>, r: Region, i: nat)
    requires FitsOne(r, |before|) && r.header < r.closer && HasBody(before, r) && |after| == |before|
    requires DirectAt(before, after, r) && Direct(before, r, i)
    ensures IndentOf(after[i]) >= IndentOf(after[r.header]) + INDENT_WIDTH
    ensures IndentOf(after[i]) == IndentOf(after[r.header]) + INDENT_WIDTH <==> IndentOf(before[i]) == Base(before, r).value
  {
    BaseIsLeast(before, r, i);
  }

  /** A line that a nested region reaches is at least as far in as that region's header, and further if it is
      not its closer. */
  lemma HeldIsIn(before: seq<string>, after: seq<string>, r: Region, i: nat)
    returns (k: nat)
    requires WellNested(r.children, r.header + 1, r.closer) && Solid(before, r.children) && KeepsText(before, after)
    requires Conforms(before, after, r.children) && BodiesIn(after, r.children)
    requires i < |before| && !Blank(before[i]) && Held(before, r.children, i)
    ensures k < |r.children| && r.children[k].header < i <= r.children[k].closer
    ensures i == r.children[k].closer ==> IndentOf(after[i]) == IndentOf(after[r.children[k].header])
    ensures i < r.children[k].closer ==> IndentOf(after[i]) >= IndentOf(after[r.children[k].header]) + INDENT_WIDTH
  {
    k :| 0 <= k < |r.children| && Holds(before, r.children[k], i);
    assert ConformsOne(before, after, r.children[k]) && BodyIn(after, r.children[k]) && SameText(before[i], after[i]);
  }

  lemma {:induction false} ConformingBodiesAreIn(before: seq<string>, after: seq<string>, regions: seq<Region>, lo: nat, hi: nat)
    requires WellNested(regions, lo, hi) && hi <= |before| && Solid(before, regions) && KeepsText(before, after)
    requires Conforms(before, after, regions)
    ensures BodiesIn(after, regions)
    decreases regions
  {
    forall k | 0 <= k < |regions|
      ensures BodyIn(after, regions[k])
    {
      RegionsBetween(regions, lo, hi, k);
      assert ConformsOne(before, after, regions[k]) && SolidOne(before, regions[k]);
      ConformingBodyIsIn(before, after, regions[k]);
    }
  }

  lemma BodyLineIsIn(before: seq<string>, after: seq<string>, r: Region, i: nat)
    requires r.header < r.closer && WellNested(r.children, r.header + 1, r.closer) && SolidOne(before, r) && KeepsText(before, after)
    requires ConformsOne(before, after, r) && HasBody(before, r) && BodiesIn(after, r.children)
    requires InBody(r, i) && i < |after| && !Blank(after[i])
    ensures IndentOf(after[i]) >= IndentOf(after[r.header]) + INDENT_WIDTH
  {
    assert SameText(before[i], after[i]);
    if Held(before, r.children, i) {
      var k := HeldIsIn(before, after, r, i);
      ChildHeaderIsDirect(before, r, k);
      DirectIsIn(before, after, r, r.children[k].header);
    } else {
      DirectIsIn(before, after, r, i);
    }
  }

  lemma {:induction false} ConformingBodyIsIn(before: seq<string>, after: seq<string>, r: Region)
    requires Proper(r) && SolidOne(before, r) && KeepsText(before, after) && ConformsOne(before, after, r)
    ensures BodyIn(after, r)
    decreases r
  {
    BodyKept(before, after, r);
    if r.header == r.closer {
    } else if HasBody(before, r) {
      ConformingBodiesAreIn(before, after, r.children, r.header + 1, r.closer);
      forall i: nat | InBody(r, i) && i < |after| && !Blank(after[i])
        ensures IndentOf(after[i]) >= IndentOf(after[r.header]) + INDENT_WIDTH
      {
        BodyLineIsIn(before, after, r, i);
      }
    } else {
      LeastIndentIs(after, r.header + 1, r.closer);
      if r.children != [] {
        ChildrenMakeABody(before, r);
        assert false;
      }
    }
  }

  lemma ChildrenMakeABody(lines: seq<string>, r: Region)
    requires r.header < r.closer && WellNested(r.children, r.header + 1, r.closer) && SolidOne(lines, r) && r.children != []
    ensures HasBody(lines, r)
  {
    RegionsBetween(r.children, r.header + 1, r.closer, 0);
    LeastIndentIs(lines, r.header + 1, r.closer);
    assert SolidOne(lines, r.children[0]);
  }

  /** After indenting, every region that has a body has its closer at its header's column and every line of its
      body at least one level in, at every depth at once; no line's text has changed. */
  lemma IndentingPutsBodiesIn(lines: seq<string>, regions: seq<Region>)
    requires WellNested(regions, 0, |lines|) && Solid(lines, regions)
    ensures Fits(regions, |lines|)
    ensures BodiesIn(Indented(lines, regions), regions)
    ensures KeepsText(lines, Indented(lines, regions))
  {
    WellNestedFits(regions, 0, |lines|, |lines|);
    IndentedConforms(lines, regions, 0, |lines|);
    IndentedKeepsText(lines, regions);
    ConformingBodiesAreIn(lines, Indented(lines, regions), regions, 0, |lines|);
  }

  /** A body is exactly one level in exactly if one of its least indented lines was not inside a region nested
      in it. */
  lemma ExactlyOneLevelIff(before: seq<string>, after: seq<string>, r: Region)
    requires r.header < r.closer && WellNested(r.children, r.header + 1, r.closer) && SolidOne(before, r) && KeepsText(before, after)
    requires ConformsOne(before, after, r) && HasBody(before, r)
    ensures HasBody(after, r)
    ensures Base(after, r).value == IndentOf(after[r.header]) + INDENT_WIDTH
       <==> LeastIsDirect(before, r)
  {
    hide FitsOne, Conforms, Solid, LeastIndent, IndentOf, Stripped, WellNested;
    BodyKept(before, after, r);
    ConformingBodyIsIn(before, after, r);
    LeastIndentIs(after, r.header + 1, r.closer);
    if Base(after, r).value == IndentOf(after[r.header]) + INDENT_WIDTH {
      var i :| r.header + 1 <= i < r.closer && !Blank(after[i]) && IndentOf(after[i]) == Base(after, r).value;
      var j := LeastDirectLine(before, after, r, i);
    }
    if i: nat :| Direct(before, r, i) && IndentOf(before[i]) == Base(before, r).value {
      DirectIsIn(before, after, r, i);
      assert SameText(before[i], after[i]);
    }
  }

  /** A line that is exactly one level in is a direct one or the closer of a nested region, whose header is. */
  lemma LeastDirectLine(before: seq<string>, after: seq<string>, r: Region, i: nat)
    returns (j: nat)
    requires r.header < r.closer && WellNested(r.children, r.header + 1, r.closer) && SolidOne(before, r) && KeepsText(before, after)
    requires ConformsOne(before, after, r) && HasBody(before, r) && BodyIn(after, r)
    requires InBody(r, i) && !Blank(after[i]) && IndentOf(after[i]) == IndentOf(after[r.header]) + INDENT_WIDTH
    ensures Direct(before, r, j) && IndentOf(before[j]) == Base(before, r).value
  {
    assert SameText(before[i], after[i]);
    if Held(before, r.children, i) {
      var k := HeldIsIn(before, after, r, i);
      j := r.children[k].header;
      ChildHeaderIsDirect(before, r, k);
    } else {
      j := i;
    }
    DirectIsIn(before, after, r, j);
  }

  // ----- At every depth -----

  /** A region stands among others or, at any depth, in one of them. */
  ghost predicate Within(r: Region, regions: seq<Region>) {
    exists k :: 0 <= k < |regions| && (regions[k] == r || Within(r, regions[k].children))
  }

  lemma {:induction false} WithinOneLine(lines: seq<string>, regions: seq<Region>, line: nat, r: Region)
    requires OneLine(regions, line) && Fits(regions, |lines|) && Solid(lines, regions) && Within(r, regions)
    ensures r.header == line == r.closer && Proper(r) && FitsOne(r, |lines|) && SolidOne(lines, r)
    decreases regions
  {
    var k :| 0 <= k < |regions| && (regions[k] == r || Within(r, regions[k].children));
    assert FitsOne(regions[k], |lines|) && SolidOne(lines, regions[k]);
    if regions[k] != r {
      WithinOneLine(lines, regions[k].children, line, r);
    }
  }

  lemma {:induction false} WithinConforms(before: seq<string>, after: seq<string>, regions: seq<Region>, lo: nat, hi: nat, r: Region)
    requires WellNested(regions, lo, hi) && hi <= |before| && Solid(before, regions) && Conforms(before, after, regions) && Within(r, regions)
    ensures lo <= r.header <= r.closer < hi && Proper(r)
    ensures SolidOne(before, r) && ConformsOne(before, after, r)
    decreases regions
  {
    hide IndentOf, LeastIndent, Fits, Direct, DirectAt, Blank;
    var k :| 0 <= k < |regions| && (regions[k] == r || Within(r, regions[k].children));
    RegionsBetween(regions, lo, hi, k);
    assert SolidOne(before, regions[k]) && ConformsOne(before, after, regions[k]);
    if regions[k] == r {
    } else if regions[k].header == regions[k].closer {
      WithinOneLine(before, regions[k].children, regions[k].header, r);
    } else {
      ChildrenMakeABody(before, regions[k]);
      WithinConforms(before, after, regions[k].children, regions[k].header + 1, regions[k].closer, r);
    }
  }

  /** A least indented line of a body that is not inside a region nested in it. */
  ghost predicate LeastIsDirect(lines: seq<string>, r: Region)
    requires r.closer < |lines| && HasBody(lines, r)
  {
    exists i: nat :: Direct(lines, r, i) && IndentOf(lines[i]) == Base(lines, r).value
  }

  /** A body stands exactly one level in. */
  predicate OneLevelIn(lines: seq<string>, r: Region)
    requires r.header <= r.closer < |lines|
  {
    Base(lines, r) == Some(IndentOf(lines[r.header]) + INDENT_WIDTH)
  }

  /** After indenting, the body of a region at any depth is exactly one level in exactly if, before, one of its
      least indented lines was not inside a region nested in it. */
  lemma IndentedExactlyOneLevelIff(lines: seq<string>, regions: seq<Region>, r: Region)
    requires WellNested(regions, 0, |lines|) && Solid(lines, regions) && Within(r, regions)
    ensures Fits(regions, |lines|) && r.header <= r.closer < |lines|
    ensures HasBody(lines, r) ==> (OneLevelIn(Indented(lines, regions), r) <==> LeastIsDirect(lines, r))
  {
    hide LeastIndent, IndentOf, WellNested, Fits, Solid, Indented, Conforms, ConformsOne, SolidOne, Within, Stripped;
    WellNestedFits(regions, 0, |lines|, |lines|);
    IndentedConforms(lines, regions, 0, |lines|);
    IndentedKeepsText(lines, regions);
    WithinConforms(lines, Indented(lines, regions), regions, 0, |lines|, r);
    if HasBody(lines, r) {
      BodyIsBetween(lines, r);
      ExactlyOneLevelIff(lines, Indented(lines, regions), r);
    }
  }

  const PULLED := ["scope a", "    scope b", "  x", "    end", "end"]
  const PULLED_REGION := Region(0, 4, [Region(1, 3, [])])

  lemma PulledIndents()
    ensures IndentOf(PULLED[0]) == 0 && IndentOf(PULLED[1]) == 4 && IndentOf(PULLED[2]) == 2
    ensures IndentOf(PULLED[3]) == 4 && IndentOf(PULLED[4]) == 0
  {
    hide IndentOf;
    IndentIs(PULLED[0], 0);
    IndentIs(PULLED[1], 4);
    IndentIs(PULLED[2], 2);
    IndentIs(PULLED[3], 4);
    IndentIs(PULLED[4], 0);
  }

  lemma OneRegion(r: Region, lo: nat, hi: nat)
    requires lo <= r.header && r.closer < hi && Proper(r)
    ensures WellNested([r], lo, hi)
  {
    assert [r][1..] == [];
  }

  lemma PulledIsNested()
    ensures WellNested([PULLED_REGION], 0, |PULLED|)
  {
    hide WellNested;
    NothingNested(2, 3);
    OneRegion(Region(1, 3, []), 1, 4);
    OneRegion(PULLED_REGION, 0, 5);
  }

  lemma NothingNested(lo: nat, hi: nat)
    ensures WellNested([], lo, hi)
  {
  }

  lemma PulledIsSolid()
    ensures Solid(PULLED, [PULLED_REGION])
  {
    hide IndentOf;
    PulledIndents();
    assert SolidOne(PULLED, PULLED_REGION.children[0]);
    assert Solid(PULLED, PULLED_REGION.children);
    assert SolidOne(PULLED, [PULLED_REGION][0]);
  }

  lemma PulledBases()
    ensures Base(PULLED, PULLED_REGION) == Some(2) && HasBody(PULLED, PULLED_REGION.children[0])
  {
    hide IndentOf, LeastIndent;
    PulledIndents();
    LeastIndentIs(PULLED, 1, 4);
    LeastIndentIs(PULLED, 2, 3);
    assert !Blank(PULLED[2]);
  }

  /** Its least indented line is inside the nested region. */
  lemma PulledLeastIsHeld()
    ensures HasBody(PULLED, PULLED_REGION) && !LeastIsDirect(PULLED, PULLED_REGION)
  {
    hide IndentOf, LeastIndent;
    PulledIndents();
    PulledBases();
    assert Holds(PULLED, PULLED_REGION.children[0], 2) && Holds(PULLED, PULLED_REGION.children[0], 3);
    forall i: nat | Direct(PULLED, PULLED_REGION, i)
      ensures IndentOf(PULLED[i]) != 2
    {
      assert i == 1 || i == 2 || i == 3;
    }
  }

  /** A text whose outer body does not come to stand exactly one level in: the nested body, less indented than
      its own header, counts for how far the outer one is moved. */
  lemma NestedBodyPullsItsRegion()
    ensures WellNested([PULLED_REGION], 0, |PULLED|) && Fits([PULLED_REGION], |PULLED|) && Solid(PULLED, [PULLED_REGION])
    ensures !OneLevelIn(Indented(PULLED, [PULLED_REGION]), PULLED_REGION)
  {
    hide IndentOf, LeastIndent, Fits, WellNested, Solid, HasBody, Indented, LeastIsDirect;
    PulledIsNested();
    WellNestedFits([PULLED_REGION], 0, |PULLED|, |PULLED|);
    PulledIsSolid();
    PulledLeastIsHeld();
    assert [PULLED_REGION][0] == PULLED_REGION && Within(PULLED_REGION, [PULLED_REGION]);
    IndentedExactlyOneLevelIff(PULLED, [PULLED_REGION], PULLED_REGION);
  }

  // ----- Reports -----

  /** The first line of a body that is not blank is a direct one. */
  lemma SomeDirectLine(lines: seq<string>, r: Region)
    returns (i: nat)
    requires r.header < r.closer && WellNested(r.children, r.header + 1, r.closer) && SolidOne(lines, r) && HasBody(lines, r)
    ensures Direct(lines, r, i)
  {
    i := r.header + 1;
    LeastIndentIs(lines, r.header + 1, r.closer);
    while Blank(lines[i])
      invariant r.header < i < r.closer && forall j :: r.header < j < i ==> Blank(lines[j])
      decreases r.closer - i
    {
      i := i + 1;
    }
    if Held(lines, r.children, i) {
      var k :| 0 <= k < |r.children| && Holds(lines, r.children[k], i);
      ChildHeaderIsDirect(lines, r, k);
    }
  }

  lemma AlignedAlready(lines: seq<string>, r: Region)
    requires r.header < r.closer < |lines| && HasBody(lines, r)
    requires Amount(lines, r) == 0 && IndentOf(lines[r.closer]) == IndentOf(lines[r.header])
    ensures Aligned(lines, r) == lines && Faults(lines, r) == []
  {
    assert forall i :: 0 <= i < |lines| ==> Moved(lines[i], 0) == lines[i];
  }

  /** A text already laid out is left as it is and nothing is reported. */
  lemma {:induction false} LaidOutIsLeft(lines: seq<string>, regions: seq<Region>, lo: nat, hi: nat)
    requires WellNested(regions, lo, hi) && hi <= |lines| && Fits(regions, |lines|) && Solid(lines, regions)
    requires Conforms(lines, lines, regions)
    ensures Indented(lines, regions) == lines && Violations(lines, regions) == []
    decreases regions
  {
    if regions != [] {
      var first := regions[0];
      assert FitsOne(first, |lines|) && SolidOne(lines, first) && ConformsOne(lines, lines, first);
      if first.header < first.closer && HasBody(lines, first) {
        var i := SomeDirectLine(lines, first);
        AlignedAlready(lines, first);
        LaidOutIsLeft(lines, first.children, first.header + 1, first.closer);
      }
      forall k | 0 <= k < |regions[1..]|
        ensures ConformsOne(lines, lines, regions[1..][k]) && FitsOne(regions[1..][k], |lines|) && SolidOne(lines, regions[1..][k])
      {
        assert ConformsOne(lines, lines, regions[k + 1]) && SolidOne(lines, regions[k + 1]);
      }
      LaidOutIsLeft(lines, regions[1..], first.closer + 1, hi);
    }
  }

  lemma {:induction false} NothingReportedNothingMoved(lines: seq<string>, regions: seq<Region>)
    requires Fits(regions, |lines|) && Violations(lines, regions) == []
    ensures Indented(lines, regions) == lines
    decreases regions
  {
    if regions != [] {
      var first := regions[0];
      assert FitsOne(first, |lines|);
      assert ViolationsOne(lines, first) == [];
      if first.header < first.closer && HasBody(lines, first) {
        AlignedAlready(lines, first);
        NothingReportedNothingMoved(lines, first.children);
      }
      NothingReportedNothingMoved(lines, regions[1..]);
    }
  }

  /** Something is reported exactly if something is moved. */
  lemma ReportedIffMoved(lines: seq<string>, regions: seq<Region>)
    requires WellNested(regions, 0, |lines|) && Solid(lines, regions)
    ensures Fits(regions, |lines|)
    ensures Violations(lines, regions) == [] <==> Indented(lines, regions) == lines
  {
    WellNestedFits(regions, 0, |lines|, |lines|);
    if Violations(lines, regions) == [] {
      NothingReportedNothingMoved(lines, regions);
    }
    if Indented(lines, regions) == lines {
      IndentedConforms(lines, regions, 0, |lines|);
      LaidOutIsLeft(lines, regions, 0, |lines|);
    }
  }

  /** A body that is not one level in. */
  predicate BodyIsOff(lines: seq<string>, r: Region) {
    r.header < r.closer < |lines| && HasBody(lines, r) && Base(lines, r) != Some(IndentOf(lines[r.header]) + 2)
  }

  /** A region with a body whose closer is not at its header's column. */
  predicate CloserIsOff(lines: seq<string>, r: Region) {
    r.header < r.closer < |lines| && HasBody(lines, r) && IndentOf(lines[r.closer]) != IndentOf(lines[r.header])
  }

  /** What is off in a text as it stands: each region's body, then its closer, before the regions in it. */
  function Off(lines: seq<string>, regions: seq<Region>): seq<Violation> {
    if regions == [] then [] else OffOne(lines, regions[0]) + Off(lines, regions[1..])
  }

  function OffOne(lines: seq<string>, r: Region): seq<Violation> {
    (if BodyIsOff(lines, r) then [BodyOff(r.header + 1)] else [])
    + (if CloserIsOff(lines, r) then [CloserOff(r.closer + 1)] else [])
    + Off(lines, r.children)
  }

  lemma OffMovesOne(lines: seq<string>, moved: seq<string>, r: Region, lo: nat, hi: nat, d: int)
    requires lo <= r.header <= r.closer < hi && Apart(lines, moved, lo, hi, d) && SolidOne(lines, r)
    ensures BodyIsOff(moved, r) <==> BodyIsOff(lines, r)
    ensures CloserIsOff(moved, r) <==> CloserIsOff(lines, r)
  {
    LeastMoves(lines, moved, r.header + 1, r.closer, d);
    hide LeastIndent, IndentOf, Solid;
  }

  lemma {:induction false} OffOnOneLine(lines: seq<string>, regions: seq<Region>, line: nat)
    requires OneLine(regions, line)
    ensures Off(lines, regions) == []
    decreases regions
  {
    if regions != [] {
      OffOnOneLine(lines, regions[0].children, line);
      OffOnOneLine(lines, regions[1..], line);
    }
  }

  /** Moving a text as a whole puts nothing off and nothing right. */
  lemma {:induction false} OffMoves(lines: seq<string>, moved: seq<string>, regions: seq<Region>, lo: nat, hi: nat, d: int)
    requires WellNested(regions, lo, hi) && Apart(lines, moved, lo, hi, d) && Solid(lines, regions)
    ensures Off(moved, regions) == Off(lines, regions)
    decreases regions
  {
    hide BodyIsOff, CloserIsOff, Apart;
    if regions != [] {
      var first := regions[0];
      assert SolidOne(lines, first);
      OffMovesOne(lines, moved, first, lo, hi, d);
      ApartWithin(lines, moved, lo, hi, first.header + 1, first.closer, first.closer + 1, d);
      if first.header < first.closer {
        OffMoves(lines, moved, first.children, first.header + 1, first.closer, d);
      } else {
        OffOnOneLine(lines, first.children, first.header);
        OffOnOneLine(moved, first.children, first.header);
      }
      assert Solid(lines, regions[1..]);
      OffMoves(lines, moved, regions[1..], first.closer + 1, hi, d);
    }
  }

  lemma ApartWithin(lines: seq<string>, moved: seq<string>, lo: nat, hi: nat, from: nat, to: nat, next: nat, d: int)
    requires Apart(lines, moved, lo, hi, d) && lo <= from && to <= hi && lo <= next
    ensures Apart(lines, moved, from, to, d) && Apart(lines, moved, next, hi, d)
  {
  }

  lemma SameIsApart(lines: seq<string>, after: seq<string>, lo: nat, hi: nat)
    requires Same(lines, after, lo, hi)
    ensures Apart(lines, after, lo, hi, 0)
  {
  }

  /** What is reported while indenting is what is off in the text as given: regions that enclose one another never
      add to, hide or reorder each other's reports. */
  lemma {:induction false} ReportsAreOff(lines: seq<string>, regions: seq<Region>, lo: nat, hi: nat)
    requires WellNested(regions, lo, hi) && hi <= |lines| && Fits(regions, |lines|) && Solid(lines, regions)
    ensures Violations(lines, regions) == Off(lines, regions)
    decreases regions, 1
  {
    hide Same, Apart, HasBody, BodyIsOff, CloserIsOff, IndentOf;
    if regions != [] {
      var first, rest := regions[0], regions[1..];
      assert FitsOne(first, |lines|) && SolidOne(lines, first);
      var done := IndentedOne(lines, first);
      RegionReportsAreOff(lines, first);
      RestPrepared(lines, regions);
      LeavesWhatFollows(lines, first, hi);
      SameIsApart(done, lines, first.closer + 1, hi);
      OffMoves(done, lines, rest, first.closer + 1, hi, 0);
      ReportsAreOff(done, rest, first.closer + 1, hi);
    }
  }

  lemma {:induction false} RegionReportsAreOff(lines: seq<string>, r: Region)
    requires FitsOne(r, |lines|) && SolidOne(lines, r) && Proper(r)
    ensures ViolationsOne(lines, r) == OffOne(lines, r)
    decreases r, 0
  {
    hide Apart, IndentOf, LeastIndent, Aligned;
    if r.header < r.closer && HasBody(lines, r) {
      var aligned := Aligned(lines, r);
      AlignedKeepsText(lines, r);
      SolidKept(lines, aligned, r.children);
      AlignedApart(lines, r);
      OffMoves(lines, aligned, r.children, r.header + 1, r.closer, Amount(lines, r));
      ReportsAreOff(aligned, r.children, r.header + 1, r.closer);
    } else if r.header < r.closer {
      if r.children != [] {
        ChildrenMakeABody(lines, r);
        assert false;
      }
    } else {
      OffOnOneLine(lines, r.children, r.header);
    }
  }

  predicate IsOff(lines: seq<string>, r: Region, v: Violation) {
    (BodyIsOff(lines, r) && v == BodyOff(r.header + 1)) || (CloserIsOff(lines, r) && v == CloserOff(r.closer + 1))
  }

  lemma OffOneHas(lines: seq<string>, r: Region, v: Violation)
    ensures v in OffOne(lines, r) <==> IsOff(lines, r, v) || v in Off(lines, r.children)
  {
    hide BodyIsOff, CloserIsOff, Off;
  }

  /** A report is made exactly of each body and each closer that is off, of regions at any depth. */
  lemma {:induction false} OffIff(lines: seq<string>, regions: seq<Region>, v: Violation)
    ensures v in Off(lines, regions) <==> exists r :: Within(r, regions) && IsOff(lines, r, v)
    decreases regions
  {
    hide IsOff, Within, OffOne;
    if regions == [] {
      NothingWithin();
    } else {
      OffOneHas(lines, regions[0], v);
      OffIff(lines, regions[0].children, v);
      OffIff(lines, regions[1..], v);
      forall r
        ensures Within(r, regions) <==> r == regions[0] || Within(r, regions[0].children) || Within(r, regions[1..])
      {
        WithinParts(r, regions);
      }
    }
  }

  lemma NothingWithin()
    ensures forall r :: !Within(r, [])
  {
  }

  lemma WithinParts(r: Region, regions: seq<Region>)
    requires regions != []
    ensures Within(r, regions) <==> r == regions[0] || Within(r, regions[0].children) || Within(r, regions[1..])
  {
    if Within(r, regions[1..]) {
      var k :| 0 <= k < |regions[1..]| && (regions[1..][k] == r || Within(r, regions[1..][k].children));
      assert regions[k + 1] == r || Within(r, regions[k + 1].children);
    }
    if Within(r, regions) {
      var k :| 0 <= k < |regions| && (regions[k] == r || Within(r, regions[k].children));
      assert k > 0 ==> regions[1..][k - 1] == regions[k];
    }
  }

  // ----- Indenting twice -----

  /** At every depth, each body has a least indented line that is not inside a region nested in it. */
  ghost predicate AllLeastDirect(lines: seq<string>, regions: seq<Region>) {
    forall k :: 0 <= k < |regions| ==> OneLeastDirect(lines, regions[k])
  }

  ghost predicate OneLeastDirect(lines: seq<string>, r: Region) {
    r.header < r.closer < |lines| && HasBody(lines, r) ==> LeastIsDirect(lines, r) && AllLeastDirect(lines, r.children)
  }

  lemma {:induction false} ConformsToItselfIff(lines: seq<string>, once: seq<string>, regions: seq<Region>, lo: nat, hi: nat)
    requires WellNested(regions, lo, hi) && hi <= |lines| && Solid(lines, regions) && KeepsText(lines, once)
    requires Conforms(lines, once, regions)
    ensures Conforms(once, once, regions) <==> AllLeastDirect(lines, regions)
    decreases regions
  {
    forall k | 0 <= k < |regions|
      ensures ConformsOne(once, once, regions[k]) <==> OneLeastDirect(lines, regions[k])
    {
      RegionsBetween(regions, lo, hi, k);
      assert ConformsOne(lines, once, regions[k]) && SolidOne(lines, regions[k]);
      OneConformsToItselfIff(lines, once, regions[k]);
    }
  }

  lemma {:induction false} OneConformsToItselfIff(lines: seq<string>, once: seq<string>, r: Region)
    requires Proper(r) && SolidOne(lines, r) && KeepsText(lines, once) && ConformsOne(lines, once, r)
    ensures ConformsOne(once, once, r) <==> OneLeastDirect(lines, r)
    decreases r
  {
    BodyKept(lines, once, r);
    if r.header < r.closer && HasBody(lines, r) {
      ExactlyOneLevelIff(lines, once, r);
      DirectAtItselfIff(lines, once, r);
      ConformsToItselfIff(lines, once, r.children, r.header + 1, r.closer);
    }
  }

  /** A region's own lines are where indenting would put them exactly if its body is exactly one level in. */
  lemma DirectAtItselfIff(lines: seq<string>, once: seq<string>, r: Region)
    requires r.header < r.closer && WellNested(r.children, r.header + 1, r.closer) && SolidOne(lines, r) && KeepsText(lines, once)
    requires FitsOne(r, |once|) && HasBody(once, r)
    ensures DirectAt(once, once, r) <==> OneLevelIn(once, r)
  {
    assert Solid(lines, [r]) by {
      assert [r][0] == r;
    }
    SolidKept(lines, once, [r]);
    assert SolidOne(once, [r][0]);
    var i := SomeDirectLine(once, r);
  }

  /** Indenting twice is indenting once exactly if, at every depth, each body has a least indented line that is
      not inside a region nested in it. */
  lemma IndentingTwiceIff(lines: seq<string>, regions: seq<Region>)
    requires WellNested(regions, 0, |lines|) && Solid(lines, regions)
    ensures Fits(regions, |lines|)
    ensures var once := Indented(lines, regions); Indented(once, regions) == once <==> AllLeastDirect(lines, regions)
  {
    WellNestedFits(regions, 0, |lines|, |lines|);
    var once := Indented(lines, regions);
    IndentedConforms(lines, regions, 0, |lines|);
    IndentedKeepsText(lines, regions);
    SolidKept(lines, once, regions);
    ConformsToItselfIff(lines, once, regions, 0, |lines|);
    if Indented(once, regions) == once {
      IndentedConforms(once, regions, 0, |lines|);
    } else if Conforms(once, once, regions) {
      LaidOutIsLeft(once, regions, 0, |lines|);
    }
  }
}
