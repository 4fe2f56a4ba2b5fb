/** What indenting achieves on well-nested regions, at every depth at once.

    The layout is stated in distances between lines, so that it survives the shifts of enclosing regions; it is
    proved for one region from what aligning does, and for siblings from what they leave alone. */
module RegionLayout {
  import opened Options
  import opened RegionNesting
  import opened RegionIndent

  // ----- Lines kept -----

  /** Blank lines are kept, the others keep their text. */
  ghost predicate KeepsText(lines: seq<string>, after: seq<string>) {
    |after| == |lines| && forall i :: 0 <= i < |lines| ==> SameText(lines[i], after[i])
  }

  predicate SameText(line: string, after: string) {
    if Blank(line) then after == line else !Blank(after) && Stripped(after) == Stripped(line)
  }

  /** Headers and closers are on lines that are not blank. */
  ghost predicate Solid(lines: seq<string>, regions: seq<Region>) {
    forall k :: 0 <= k < |regions| ==> SolidOne(lines, regions[k])
  }

  ghost predicate SolidOne(lines: seq<string>, r: Region) {
    r.header < |lines| && r.closer < |lines| && !Blank(lines[r.header]) && !Blank(lines[r.closer]) && Solid(lines, r.children)
  }

  lemma {:induction false} OneLineFits(regions: seq<Region>, line: nat, n: nat)
    requires OneLine(regions, line) && line < n
    ensures Fits(regions, n)
    decreases regions
  {
    forall k | 0 <= k < |regions|
      ensures FitsOne(regions[k], n)
    {
      OneLineFits(regions[k].children, line, n);
    }
  }

  /** Well-nested regions lie within the text. */
  lemma {:induction false} WellNestedFits(regions: seq<Region>, lo: nat, hi: nat, n: nat)
    requires WellNested(regions, lo, hi) && hi <= n
    ensures Fits(regions, n)
    decreases regions
  {
    if regions != [] {
      WellNestedFits(regions[1..], regions[0].closer + 1, hi, n);
      if regions[0].header < regions[0].closer {
        WellNestedFits(regions[0].children, regions[0].header + 1, regions[0].closer, n);
      } else {
        OneLineFits(regions[0].children, regions[0].header, n);
      }
      forall k | 0 <= k < |regions|
        ensures FitsOne(regions[k], n)
      {
        if k > 0 {
          assert FitsOne(regions[1..][k - 1], n);
        }
      }
    }
  }

  lemma {:induction false} SolidKept(lines: seq<string>, after: seq<string>, regions: seq<Region>)
    requires Solid(lines, regions) && KeepsText(lines, after)
    ensures Solid(after, regions)
    decreases regions
  {
    forall k | 0 <= k < |regions|
      ensures SolidOne(after, regions[k])
    {
      var r := regions[k];
      assert SolidOne(lines, r) && SameText(lines[r.header], after[r.header]) && SameText(lines[r.closer], after[r.closer]);
      SolidKept(lines, after, r.children);
    }
  }

  lemma KeepsTextThen(a: seq<string>, b: seq<string>, c: seq<string>)
    requires KeepsText(a, b) && KeepsText(b, c)
    ensures KeepsText(a, c)
  {
    forall i | 0 <= i < |a|
      ensures SameText(a[i], c[i])
    {
      assert SameText(a[i], b[i]) && SameText(b[i], c[i]);
    }
  }

  lemma AlignedIs(lines: seq<string>, r: Region, i: nat)
    requires r.header < r.closer < |lines| && Base(lines, r).Some? && i < |lines| && !Blank(lines[r.closer])
    ensures var line := Aligned(lines, r)[i];
            && SameText(lines[i], line)
            && (!(r.header < i <= r.closer) ==> line == lines[i])
            && (InBody(r, i) && !Blank(lines[i]) ==> IndentOf(line) == IndentOf(lines[i]) + Amount(lines, r))
            && (i == r.closer ==> IndentOf(line) == IndentOf(lines[r.header]))
  {
    hide LeastIndent, IndentOf, Stripped, Moved;
    LeastIndentIs(lines, r.header + 1, r.closer);
    if InBody(r, i) && !Blank(lines[i]) {
      MovedIndent(lines[i], Amount(lines, r));
    }
    AtIndent(IndentOf(lines[r.header]), lines[r.closer]);
  }

  lemma AlignedKeepsText(lines: seq<string>, r: Region)
    requires r.header < r.closer < |lines| && Base(lines, r).Some? && !Blank(lines[r.closer])
    ensures KeepsText(lines, Aligned(lines, r))
  {
    forall i | 0 <= i < |lines|
      ensures SameText(lines[i], Aligned(lines, r)[i])
    {
      AlignedIs(lines, r, i);
    }
  }

  lemma RestFits(lines: seq<string>, done: seq<string>, regions: seq<Region>)
    requires regions != [] && Fits(regions, |lines|) && Solid(lines, regions) && KeepsText(lines, done)
    ensures FitsOne(regions[0], |lines|) && SolidOne(lines, regions[0])
    ensures Fits(regions[1..], |done|) && Solid(done, regions[1..])
  {
    assert FitsOne(regions[0], |lines|) && SolidOne(lines, regions[0]);
    assert Solid(lines, regions[1..]);
    SolidKept(lines, done, regions[1..]);
  }

  /** Indenting keeps every line's text after its leading white space, and blank lines as they are. */
  lemma {:induction false} IndentedKeepsText(lines: seq<string>, regions: seq<Region>)
    requires Fits(regions, |lines|) && Solid(lines, regions)
    ensures KeepsText(lines, Indented(lines, regions))
    decreases regions
  {
    if regions != [] {
      assert FitsOne(regions[0], |lines|) && SolidOne(lines, regions[0]);
      var done := IndentedOne(lines, regions[0]);
      IndentedOneKeepsText(lines, regions[0]);
      RestFits(lines, done, regions);
      IndentedKeepsText(done, regions[1..]);
      KeepsTextThen(lines, done, Indented(done, regions[1..]));
    }
  }

  lemma {:induction false} IndentedOneKeepsText(lines: seq<string>, r: Region)
    requires FitsOne(r, |lines|) && SolidOne(lines, r)
    ensures KeepsText(lines, IndentedOne(lines, r))
    decreases r
  {
    if r.header < r.closer && Base(lines, r).Some? {
      AlignedKeepsText(lines, r);
      SolidKept(lines, Aligned(lines, r), r.children);
      IndentedKeepsText(Aligned(lines, r), r.children);
      KeepsTextThen(lines, Aligned(lines, r), IndentedOne(lines, r));
    } else {
      forall i | 0 <= i < |lines|
        ensures SameText(lines[i], lines[i])
      {
      }
    }
  }

  // ----- Lines left alone -----

  predicate HasBody(lines: seq<string>, r: Region)
    requires r.closer < |lines|
  {
    Base(lines, r).Some?
  }

  /** Whether a region that has a body to indent reaches a line. */
  predicate Holds(lines: seq<string>, r: Region, i: nat) {
    r.header < i <= r.closer < |lines| && HasBody(lines, r)
  }

  ghost predicate Held(lines: seq<string>, regions: seq<Region>, i: nat) {
    exists k :: 0 <= k < |regions| && Holds(lines, regions[k], i)
  }

  ghost predicate Same(lines: seq<string>, after: seq<string>, lo: nat, hi: nat) {
    |after| == |lines| && hi <= |lines| && forall i :: lo <= i < hi ==> after[i] == lines[i]
  }

  lemma {:induction false} SameLeast(lines: seq<string>, after: seq<string>, from: nat, end: nat)
    requires Same(lines, after, from, end)
    ensures LeastIndent(after, from, end) == LeastIndent(lines, from, end)
    decreases end
  {
    if from < end {
      SameLeast(lines, after, from, end - 1);
    }
  }

  lemma {:induction false} RegionsBetween(regions: seq<Region>, lo: nat, hi: nat, k: nat)
    requires WellNested(regions, lo, hi) && k < |regions|
    ensures lo <= regions[k].header <= regions[k].closer < hi && Proper(regions[k])
    ensures forall j :: 0 <= j < |regions| && j != k ==> regions[j].closer < regions[k].header || regions[k].closer < regions[j].header
  {
    if k > 0 {
      RegionsBetween(regions[1..], regions[0].closer + 1, hi, k - 1);
      assert forall j :: 0 < j < |regions| ==> regions[j] == regions[1..][j - 1];
    } else {
      forall j | 0 < j < |regions|
        ensures regions[0].closer < regions[j].header
      {
        RegionsBetween(regions[1..], regions[0].closer + 1, hi, j - 1);
      }
    }
  }

  /** Regions reach no line outside their range. */
  lemma HeldBetween(lines: seq<string>, regions: seq<Region>, lo: nat, hi: nat, i: nat)
    requires WellNested(regions, lo, hi) && Held(lines, regions, i)
    ensures lo < i < hi
  {
    var k :| 0 <= k < |regions| && Holds(lines, regions[k], i);
    RegionsBetween(regions, lo, hi, k);
  }

  lemma SameHolds(lines: seq<string>, after: seq<string>, r: Region, i: nat)
    requires Same(lines, after, r.header + 1, r.closer) && r.closer < |lines|
    ensures Holds(after, r, i) <==> Holds(lines, r, i)
  {
    SameLeast(lines, after, r.header + 1, r.closer);
    hide LeastIndent, Same;
  }

  /** On lines that are the same, the same regions reach the same lines. */
  lemma SameHeld(lines: seq<string>, after: seq<string>, regions: seq<Region>, lo: nat, hi: nat, i: nat)
    requires WellNested(regions, lo, hi) && Same(lines, after, lo, hi)
    ensures Held(after, regions, i) <==> Held(lines, regions, i)
  {
    hide Holds, WellNested;
    forall k | 0 <= k < |regions|
      ensures Holds(after, regions[k], i) <==> Holds(lines, regions[k], i)
    {
      RegionsBetween(regions, lo, hi, k);
      SameHolds(lines, after, regions[k], i);
    }
  }

  /** Indenting leaves alone every line that no region with a body reaches. */
  lemma {:induction false} IndentedLeaves(lines: seq<string>, regions: seq<Region>, lo: nat, hi: nat)
    requires WellNested(regions, lo, hi) && hi <= |lines| && Fits(regions, |lines|) && Solid(lines, regions)
    ensures forall i :: 0 <= i < |lines| && !Held(lines, regions, i) ==> Indented(lines, regions)[i] == lines[i]
    decreases regions
  {
    hide IndentOf, HasBody, IndentedOne;
    if regions != [] {
      var first := regions[0];
      assert FitsOne(first, |lines|) && SolidOne(lines, first);
      var done := IndentedOne(lines, first);
      IndentedOneLeaves(lines, first);
      IndentedOneKeepsText(lines, first);
      assert Solid(lines, regions[1..]) && Fits(regions[1..], |lines|);
      SolidKept(lines, done, regions[1..]);
      IndentedLeaves(done, regions[1..], first.closer + 1, hi);
      forall i | 0 <= i < |lines| && !Held(lines, regions, i)
        ensures Indented(lines, regions)[i] == lines[i]
      {
        assert !Holds(lines, regions[0], i);
        assert forall k :: 0 <= k < |regions[1..]| ==> !Holds(lines, regions[1..][k], i) by {
          assert forall k :: 0 <= k < |regions[1..]| ==> regions[1..][k] == regions[k + 1];
        }
        SameHeld(lines, done, regions[1..], first.closer + 1, hi, i);
      }
    }
  }

  /** Aligning a region neither moves a line it does not reach nor lets its children reach it. */
  lemma OutsideIsKept(lines: seq<string>, r: Region, i: nat)
    requires r.header < r.closer < |lines| && Base(lines, r).Some? && i < |lines| && !Blank(lines[r.closer])
    requires WellNested(r.children, r.header + 1, r.closer) && !Holds(lines, r, i)
    ensures Aligned(lines, r)[i] == lines[i] && !Held(Aligned(lines, r), r.children, i)
  {
    AlignedIs(lines, r, i);
    if Held(Aligned(lines, r), r.children, i) {
      HeldBetween(Aligned(lines, r), r.children, r.header + 1, r.closer, i);
    }
  }

  lemma {:induction false} IndentedOneLeaves(lines: seq<string>, r: Region)
    requires FitsOne(r, |lines|) && SolidOne(lines, r) && Proper(r)
    ensures forall i :: 0 <= i < |lines| && !Holds(lines, r, i) ==> IndentedOne(lines, r)[i] == lines[i]
    decreases r, 1
  {
    if r.header < r.closer && Base(lines, r).Some? {
      var after := Indented(Aligned(lines, r), r.children);
      assert IndentedOne(lines, r) == after;
      BodyLeaves(lines, r, after);
    }
  }

  lemma {:induction false} BodyLeaves(lines: seq<string>, r: Region, after: seq<string>)
    requires FitsOne(r, |lines|) && SolidOne(lines, r) && WellNested(r.children, r.header + 1, r.closer)
    requires r.header < r.closer && Base(lines, r).Some? && after == Indented(Aligned(lines, r), r.children)
    ensures forall i :: 0 <= i < |lines| && !Holds(lines, r, i) ==> after[i] == lines[i]
    decreases r, 0
  {
    var aligned := Aligned(lines, r);
    AlignedKeepsText(lines, r);
    SolidKept(lines, aligned, r.children);
    IndentedLeaves(aligned, r.children, r.header + 1, r.closer);
    forall i | 0 <= i < |lines| && !Holds(lines, r, i)
      ensures after[i] == lines[i]
    {
      OutsideIsKept(lines, r, i);
    }
  }

  // ----- What the layout is -----

  /** A line of a region's body that no region in it has moved by itself. */
  ghost predicate Direct(lines: seq<string>, r: Region, i: nat) {
    InBody(r, i) && i < |lines| && !Blank(lines[i]) && !Held(lines, r.children, i)
  }

  ghost predicate Conforms(before: seq<string>, after: seq<string>, regions: seq<Region>) {
    |after| == |before| && Fits(regions, |before|) && forall k :: 0 <= k < |regions| ==> ConformsOne(before, after, regions[k])
  }

  /** A region with a body has its closer at its header's column and its direct lines one level in, as far
      apart as they were; so have the regions in it. */
  ghost predicate ConformsOne(before: seq<string>, after: seq<string>, r: Region) {
    && |after| == |before| && FitsOne(r, |before|)
    && (r.header < r.closer && HasBody(before, r) ==>
          && IndentOf(after[r.closer]) == IndentOf(after[r.header])
          && DirectAt(before, after, r)
          && Conforms(before, after, r.children))
  }

  ghost predicate DirectAt(before: seq<string>, after: seq<string>, r: Region)
    requires |after| == |before| && FitsOne(r, |before|) && HasBody(before, r)
  {
    forall i: nat :: Direct(before, r, i) ==>
                       IndentOf(after[i]) == IndentOf(after[r.header]) + INDENT_WIDTH + IndentOf(before[i]) - Base(before, r).value
  }

  /** Two texts whose lines in a range are blank alike and otherwise a fixed distance apart. */
  ghost predicate Apart(lines: seq<string>, moved: seq<string>, lo: nat, hi: nat, d: int) {
    && |moved| == |lines| && hi <= |lines|
    && forall i :: lo <= i < hi ==>
                     && (Blank(moved[i]) <==> Blank(lines[i]))
                     && (!Blank(lines[i]) ==> IndentOf(moved[i]) == IndentOf(lines[i]) + d)
  }

  lemma {:induction false} LeastMoves(lines: seq<string>, moved: seq<string>, from: nat, end: nat, d: int)
    requires Apart(lines, moved, from, end, d)
    ensures var a, b := LeastIndent(lines, from, end), LeastIndent(moved, from, end);
            (a.Some? <==> b.Some?) && (a.Some? ==> b.value == a.value + d)
    decreases end
  {
    if from < end {
      LeastMoves(lines, moved, from, end - 1, d);
    }
  }

  lemma HoldsMoves(lines: seq<string>, moved: seq<string>, r: Region, d: int, i: nat)
    requires Apart(lines, moved, r.header + 1, r.closer, d) && r.closer < |lines|
    ensures Holds(moved, r, i) <==> Holds(lines, r, i)
  {
    LeastMoves(lines, moved, r.header + 1, r.closer, d);
    hide LeastIndent, IndentOf, Blank;
  }

  lemma HeldMoves(lines: seq<string>, moved: seq<string>, regions: seq<Region>, lo: nat, hi: nat, d: int, i: nat)
    requires WellNested(regions, lo, hi) && Apart(lines, moved, lo, hi, d)
    ensures Held(moved, regions, i) <==> Held(lines, regions, i)
  {
    hide Holds, WellNested, IndentOf, Blank;
    forall k | 0 <= k < |regions|
      ensures Holds(moved, regions[k], i) <==> Holds(lines, regions[k], i)
    {
      RegionsBetween(regions, lo, hi, k);
      HoldsMoves(lines, moved, regions[k], d, i);
    }
  }

  /** The layout speaks of distances only: moving the text it starts from as a whole changes nothing. */
  lemma {:induction false} ConformsMoves(before: seq<string>, moved: seq<string>, after: seq<string>, after': seq<string>,
                                         regions: seq<Region>, lo: nat, hi: nat, d: int)
    requires WellNested(regions, lo, hi) && Apart(before, moved, lo, hi, d) && Same(after, after', lo, hi)
    requires Conforms(before, after, regions)
    ensures Conforms(moved, after', regions)
    decreases regions
  {
    forall k | 0 <= k < |regions|
      ensures ConformsOne(moved, after', regions[k])
    {
      RegionsBetween(regions, lo, hi, k);
      assert ConformsOne(before, after, regions[k]);
      ConformsOneMoves(before, moved, after, after', regions[k], lo, hi, d);
    }
  }

  lemma DirectMoves(before: seq<string>, moved: seq<string>, after: seq<string>, after': seq<string>, r: Region, d: int, i: nat)
    requires WellNested(r.children, r.header + 1, r.closer) && r.header < r.closer < |before|
    requires Apart(before, moved, r.header + 1, r.closer, d) && |after| == |before| && Same(after, after', r.header, r.closer)
    requires HasBody(before, r) && FitsOne(r, |before|) && DirectAt(before, after, r) && Direct(moved, r, i)
    ensures HasBody(moved, r)
    ensures IndentOf(after'[i]) == IndentOf(after'[r.header]) + INDENT_WIDTH + IndentOf(moved[i]) - Base(moved, r).value
  {
    hide LeastIndent, IndentOf, WellNested, Held, Fits, FitsOne;
    LeastMoves(before, moved, r.header + 1, r.closer, d);
    HeldMoves(before, moved, r.children, r.header + 1, r.closer, d, i);
    assert Direct(before, r, i);
  }

  lemma {:induction false} ConformsOneMoves(before: seq<string>, moved: seq<string>, after: seq<string>, after': seq<string>,
                                            r: Region, lo: nat, hi: nat, d: int)
    requires lo <= r.header <= r.closer < hi && Proper(r)
    requires Apart(before, moved, lo, hi, d) && Same(after, after', lo, hi) && ConformsOne(before, after, r)
    ensures ConformsOne(moved, after', r)
    decreases r
  {
    hide LeastIndent, IndentOf, WellNested, Held, Fits;
    LeastMoves(before, moved, r.header + 1, r.closer, d);
    if r.header < r.closer && HasBody(moved, r) {
      forall i: nat | Direct(moved, r, i)
        ensures IndentOf(after'[i]) == IndentOf(after'[r.header]) + INDENT_WIDTH + IndentOf(moved[i]) - Base(moved, r).value
      {
        DirectMoves(before, moved, after, after', r, d, i);
      }
      ConformsMoves(before, moved, after, after', r.children, r.header + 1, r.closer, d);
    }
  }

  lemma ConformsCons(before: seq<string>, after: seq<string>, regions: seq<Region>)
    requires regions != [] && ConformsOne(before, after, regions[0]) && Conforms(before, after, regions[1..])
    ensures Conforms(before, after, regions)
  {
    forall k | 0 <= k < |regions|
      ensures ConformsOne(before, after, regions[k]) && FitsOne(regions[k], |before|)
    {
      if k > 0 {
        assert ConformsOne(before, after, regions[1..][k - 1]);
      }
    }
  }

  /** Indenting well-nested regions lays all of them out, however deep. */
  lemma {:induction false} IndentedConforms(lines: seq<string>, regions: seq<Region>, lo: nat, hi: nat)
    requires WellNested(regions, lo, hi) && hi <= |lines| && Fits(regions, |lines|) && Solid(lines, regions)
    ensures Conforms(lines, Indented(lines, regions), regions)
    decreases regions
  {
    if regions != [] {
      var first, rest := regions[0], regions[1..];
      assert FitsOne(first, |lines|) && SolidOne(lines, first);
      var done := IndentedOne(lines, first);
      RestPrepared(lines, regions);
      LeavesWhatFollows(lines, first, hi);
      LeavesWhatPrecedes(done, rest, first.closer + 1, hi);
      var after := Indented(done, rest);
      assert Indented(lines, regions) == after;
      IndentedOneConforms(lines, first);
      ConformsOneMoves(lines, lines, done, after, first, lo, first.closer + 1, 0);
      IndentedConforms(done, rest, first.closer + 1, hi);
      ConformsMoves(done, lines, after, after, rest, first.closer + 1, hi, 0);
      ConformsCons(lines, after, regions);
    }
  }

  lemma LeavesWhatFollows(lines: seq<string>, r: Region, hi: nat)
    requires FitsOne(r, |lines|) && SolidOne(lines, r) && Proper(r) && hi <= |lines|
    ensures Same(IndentedOne(lines, r), lines, r.closer + 1, hi)
  {
    IndentedOneLeaves(lines, r);
  }

  lemma LeavesWhatPrecedes(lines: seq<string>, regions: seq<Region>, lo: nat, hi: nat)
    requires WellNested(regions, lo, hi) && lo <= hi <= |lines| && Fits(regions, |lines|) && Solid(lines, regions)
    ensures Same(lines, Indented(lines, regions), 0, lo)
  {
    IndentedLeaves(lines, regions, lo, hi);
    forall i | 0 <= i < lo
      ensures Indented(lines, regions)[i] == lines[i]
    {
      if Held(lines, regions, i) {
        HeldBetween(lines, regions, lo, hi, i);
      }
    }
  }

  lemma RestPrepared(lines: seq<string>, regions: seq<Region>)
    requires regions != [] && Fits(regions, |lines|) && Solid(lines, regions) && FitsOne(regions[0], |lines|)
    ensures var done := IndentedOne(lines, regions[0]); Fits(regions[1..], |done|) && Solid(done, regions[1..])
  {
    assert SolidOne(lines, regions[0]);
    IndentedOneKeepsText(lines, regions[0]);
    RestFits(lines, IndentedOne(lines, regions[0]), regions);
  }

  lemma {:induction false} IndentedOneConforms(lines: seq<string>, r: Region)
    requires FitsOne(r, |lines|) && SolidOne(lines, r) && Proper(r)
    ensures ConformsOne(lines, IndentedOne(lines, r), r)
    decreases r
  {
    hide IndentOf, LeastIndent, Apart, KeepsText, DirectAt, Solid, Blank;
    if r.header < r.closer && HasBody(lines, r) {
      var aligned, after := Aligned(lines, r), IndentedOne(lines, r);
      AlignedKeepsText(lines, r);
      SolidKept(lines, aligned, r.children);
      IndentedConforms(aligned, r.children, r.header + 1, r.closer);
      AlignedApart(lines, r);
      ConformsMoves(aligned, lines, after, after, r.children, r.header + 1, r.closer, -Amount(lines, r));
      DirectAligned(lines, r);
    }
  }

  lemma AlignedApart(lines: seq<string>, r: Region)
    requires r.header < r.closer < |lines| && HasBody(lines, r) && !Blank(lines[r.closer])
    ensures Apart(Aligned(lines, r), lines, r.header + 1, r.closer, -Amount(lines, r))
    ensures Apart(lines, Aligned(lines, r), r.header + 1, r.closer, Amount(lines, r))
  {
    forall i | r.header + 1 <= i < r.closer
      ensures Blank(Aligned(lines, r)[i]) <==> Blank(lines[i])
      ensures !Blank(lines[i]) ==> IndentOf(Aligned(lines, r)[i]) == IndentOf(lines[i]) + Amount(lines, r)
    {
      AlignedIs(lines, r, i);
    }
  }

  lemma AlignedStays(lines: seq<string>, r: Region, i: nat)
    requires FitsOne(r, |lines|) && SolidOne(lines, r) && r.header < r.closer && WellNested(r.children, r.header + 1, r.closer)
    requires HasBody(lines, r) && i < |lines| && !Held(lines, r.children, i)
    ensures IndentedOne(lines, r)[i] == Aligned(lines, r)[i]
  {
    var aligned := Aligned(lines, r);
    AlignedKeepsText(lines, r);
    SolidKept(lines, aligned, r.children);
    AlignedApart(lines, r);
    HeldMoves(lines, aligned, r.children, r.header + 1, r.closer, Amount(lines, r), i);
    IndentedLeaves(aligned, r.children, r.header + 1, r.closer);
  }

  /** A region's own lines stay where aligning the region has put them. */
  lemma DirectAligned(lines: seq<string>, r: Region)
    requires FitsOne(r, |lines|) && SolidOne(lines, r) && r.header < r.closer && WellNested(r.children, r.header + 1, r.closer)
    requires HasBody(lines, r)
    ensures var after := IndentedOne(lines, r);
            IndentOf(after[r.closer]) == IndentOf(after[r.header]) && DirectAt(lines, after, r)
  {
    var after := IndentedOne(lines, r);
    NotHeldOutside(lines, r);
    AlignedStays(lines, r, r.header);
    AlignedStays(lines, r, r.closer);
    AlignedIs(lines, r, r.header);
    AlignedIs(lines, r, r.closer);
    forall i: nat | Direct(lines, r, i)
      ensures IndentOf(after[i]) == IndentOf(after[r.header]) + INDENT_WIDTH + IndentOf(lines[i]) - Base(lines, r).value
    {
      AlignedStays(lines, r, i);
      AlignedIs(lines, r, i);
    }
  }

  lemma NotHeldOutside(lines: seq<string>, r: Region)
    requires WellNested(r.children, r.header + 1, r.closer)
    ensures !Held(lines, r.children, r.header) && !Held(lines, r.children, r.closer)
  {
    if Held(lines, r.children, r.header) {
      HeldBetween(lines, r.children, r.header + 1, r.closer, r.header);
    }
    if Held(lines, r.children, r.closer) {
      HeldBetween(lines, r.children, r.header + 1, r.closer, r.closer);
    }
  }
}
