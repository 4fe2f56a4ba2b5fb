/** Indenting scope regions in place.

    Each region's body is shifted to one level under its header and its closer put at the header's column,
    outermost regions first. */
module RegionIndent {
  import opened Options
  import opened Texts
  import opened RegionNesting

  const INDENT_WIDTH := 2

  // ----- Lines -----

  function IndentOf(line: string): (n: nat)
    ensures n <= |line|
  {
    if line == [] || !IsSpace(line[0]) then 0 else 1 + IndentOf(line[1..])
  }

  predicate IsIndent(line: string, n: nat) {
    n <= |line| && (forall i :: 0 <= i < n ==> IsSpace(line[i])) && (n < |line| ==> !IsSpace(line[n]))
  }

  /** The indentation is the length of the leading white space. */
  lemma {:induction false} IndentIs(line: string, n: nat)
    ensures IndentOf(line) == n <==> IsIndent(line, n)
    decreases |line|
  {
    if line != [] && IsSpace(line[0]) {
      if n > 0 {
        IndentIs(line[1..], n - 1);
        if IsIndent(line[1..], n - 1) {
          assert forall i :: 0 < i < n ==> line[i] == line[1..][i - 1];
        }
      }
    }
  }

  predicate Blank(line: string) {
    IndentOf(line) == |line|
  }

  function Stripped(line: string): string {
    line[IndentOf(line)..]
  }

  function Spaces(n: nat): (s: string)
    ensures |s| == n && forall i :: 0 <= i < n ==> s[i] == ' '
  {
    seq(n, _ => ' ')
  }

  /** A line moved by an amount; to the left, no further than its indentation. */
  function Moved(line: string, amount: int): string
    requires amount < 0 ==> -amount <= |line|
  {
    if amount > 0 then Spaces(amount) + line else line[-amount..]
  }

  lemma MovedIndent(line: string, amount: int)
    requires -amount <= IndentOf(line) && !Blank(line)
    ensures IndentOf(Moved(line, amount)) == IndentOf(line) + amount
    ensures Stripped(Moved(line, amount)) == Stripped(line) && !Blank(Moved(line, amount))
  {
    var moved, n := Moved(line, amount), IndentOf(line) + amount;
    IndentIs(line, IndentOf(line));
    assert forall i :: 0 <= i < |moved| && i >= amount ==> moved[i] == line[i - amount];
    IndentIs(moved, n);
    assert moved[n..] == line[IndentOf(line)..];
  }

  /** A line put at a column. */
  function At(column: nat, line: string): string {
    Spaces(column) + Stripped(line)
  }

  lemma AtIndent(column: nat, line: string)
    requires !Blank(line)
    ensures IndentOf(At(column, line)) == column && Stripped(At(column, line)) == Stripped(line) && !Blank(At(column, line))
  {
    IndentIs(line, IndentOf(line));
    IndentIs(At(column, line), column);
  }

  // ----- The body of a region -----

  predicate InBody(r: Region, i: nat) {
    r.header < i < r.closer
  }

  /** The least indentation of the lines from one on to another that are not blank. */
  function LeastIndent(lines: seq<string>, from: nat, end: nat): Option<nat>
    requires end <= |lines|
    decreases end
  {
    if from >= end then None
    else
      var before := LeastIndent(lines, from, end - 1);
      if Blank(lines[end - 1]) then before
      else if before.Some? && before.value <= IndentOf(lines[end - 1]) then before
      else Some(IndentOf(lines[end - 1]))
  }

  lemma {:induction false} LeastIndentIs(lines: seq<string>, from: nat, end: nat)
    requires end <= |lines|
    ensures LeastIndent(lines, from, end).None? <==> forall i :: from <= i < end ==> Blank(lines[i])
    ensures LeastIndent(lines, from, end).Some? ==>
              (forall i :: from <= i < end && !Blank(lines[i]) ==> LeastIndent(lines, from, end).value <= IndentOf(lines[i]))
    ensures LeastIndent(lines, from, end).Some? ==>
              exists i :: from <= i < end && !Blank(lines[i]) && LeastIndent(lines, from, end).value == IndentOf(lines[i])
    decreases end
  {
    if from < end {
      LeastIndentIs(lines, from, end - 1);
    }
  }

  function Base(lines: seq<string>, r: Region): Option<nat>
    requires r.closer < |lines|
  {
    LeastIndent(lines, r.header + 1, r.closer)
  }

  // ----- What indenting does, on values -----

  /** Shifting takes nothing but spaces away. */
  predicate CanShift(lines: seq<string>, from: nat, end: nat, amount: int)
    requires end <= |lines|
  {
    forall i :: from <= i < end && !Blank(lines[i]) ==> -amount <= IndentOf(lines[i])
  }

  /** A range of lines shifted, blank ones aside. */
  function Shifted(lines: seq<string>, from: nat, end: nat, amount: int): (shifted: seq<string>)
    requires end <= |lines| && CanShift(lines, from, end, amount)
    ensures |shifted| == |lines|
    ensures forall i :: 0 <= i < |lines| ==>
                          shifted[i] == if from <= i < end && !Blank(lines[i]) then Moved(lines[i], amount) else lines[i]
  {
    seq(|lines|, i requires 0 <= i < |lines| => if from <= i < end && !Blank(lines[i]) then Moved(lines[i], amount) else lines[i])
  }

  function Amount(lines: seq<string>, r: Region): int
    requires r.header < r.closer < |lines| && Base(lines, r).Some?
  {
    IndentOf(lines[r.header]) + INDENT_WIDTH - Base(lines, r).value
  }

  /** A region's body shifted under its header, and its closer at the header's column. */
  function Aligned(lines: seq<string>, r: Region): (aligned: seq<string>)
    requires r.header < r.closer < |lines| && Base(lines, r).Some?
    ensures |aligned| == |lines|
  {
    var column := IndentOf(lines[r.header]);
    LeastIndentIs(lines, r.header + 1, r.closer);
    assert CanShift(lines, r.header + 1, r.closer, Amount(lines, r));
    var shifted := Shifted(lines, r.header + 1, r.closer, Amount(lines, r));
    if IndentOf(lines[r.closer]) == column then shifted else shifted[r.closer := At(column, lines[r.closer])]
  }

  predicate Fits(regions: seq<Region>, n: nat) {
    forall i :: 0 <= i < |regions| ==> FitsOne(regions[i], n)
  }

  predicate FitsOne(r: Region, n: nat) {
    r.header <= r.closer < n && Fits(r.children, n)
  }

  function Indented(lines: seq<string>, regions: seq<Region>): (after: seq<string>)
    requires Fits(regions, |lines|)
    ensures |after| == |lines|
    decreases regions
  {
    if regions == [] then lines
    else
      assert FitsOne(regions[0], |lines|);
      Indented(IndentedOne(lines, regions[0]), regions[1..])
  }

  /** A region with its body and all it nests; one that has no body to go by is left alone. */
  function IndentedOne(lines: seq<string>, r: Region): (after: seq<string>)
    requires FitsOne(r, |lines|)
    ensures |after| == |lines|
    decreases r
  {
    if r.header < r.closer && Base(lines, r).Some? then Indented(Aligned(lines, r), r.children) else lines
  }

  datatype Violation = BodyOff(line: nat) | CloserOff(line: nat)

  function Faults(lines: seq<string>, r: Region): seq<Violation>
    requires r.header < r.closer < |lines| && Base(lines, r).Some?
  {
    FaultList(r, Amount(lines, r) != 0, IndentOf(lines[r.closer]) != IndentOf(lines[r.header]))
  }

  function FaultList(r: Region, bodyOff: bool, closerOff: bool): seq<Violation> {
    (if bodyOff then [BodyOff(r.header + 1)] else []) + if closerOff then [CloserOff(r.closer + 1)] else []
  }

  function Violations(lines: seq<string>, regions: seq<Region>): seq<Violation>
    requires Fits(regions, |lines|)
    decreases regions
  {
    if regions == [] then []
    else
      assert FitsOne(regions[0], |lines|);
      ViolationsOne(lines, regions[0]) + Violations(IndentedOne(lines, regions[0]), regions[1..])
  }

  function ViolationsOne(lines: seq<string>, r: Region): seq<Violation>
    requires FitsOne(r, |lines|)
    decreases r
  {
    if r.header < r.closer && Base(lines, r).Some? then Faults(lines, r) + Violations(Aligned(lines, r), r.children) else []
  }

  // ----- In place -----

  /** Shift every line of a range that is not blank. */
  method Shift(lines: array<string>, from: nat, end: nat, amount: int)
    requires from <= end <= lines.Length && CanShift(lines[..], from, end, amount)
    modifies lines
    ensures lines[..] == Shifted(old(lines[..]), from, end, amount)
  {
    if amount == 0 {
      return;
    }
    for index := from to end
      invariant forall i :: 0 <= i < lines.Length ==>
                              lines[i] == if from <= i < index && !Blank(old(lines[i])) then Moved(old(lines[i]), amount) else old(lines[i])
    {
      if Blank(lines[index]) {
        continue;
      }
      lines[index] := if amount > 0 then Spaces(amount) + lines[index] else lines[index][-amount..];
    }
  }

  /** What is left to do completes what has been done and found. */
  ghost predicate Remains(lines: seq<string>, regions: seq<Region>, found: seq<Violation>, after: seq<string>,
                          all: seq<Violation>) {
    Fits(regions, |lines|) && Indented(lines, regions) == after && found + Violations(lines, regions) == all
  }

  lemma RemainsNext(lines: seq<string>, regions: seq<Region>, found: seq<Violation>, after: seq<string>, all: seq<Violation>)
    requires Remains(lines, regions, found, after, all) && regions != []
    ensures FitsOne(regions[0], |lines|)
    ensures Remains(IndentedOne(lines, regions[0]), regions[1..], found + ViolationsOne(lines, regions[0]), after, all)
  {
    assert FitsOne(regions[0], |lines|);
    var done := IndentedOne(lines, regions[0]);
    assert Fits(regions[1..], |done|);
    FoundMore(found, ViolationsOne(lines, regions[0]), Violations(done, regions[1..]));
  }

  lemma FoundMore(found: seq<Violation>, more: seq<Violation>, rest: seq<Violation>)
    ensures found + (more + rest) == found + more + rest
  {
  }

  /** Indent each region's body one level under its header, outermost first. */
  method ApplyIndent(lines: array<string>, regions: seq<Region>) returns (violations: seq<Violation>)
    requires Fits(regions, lines.Length)
    modifies lines
    ensures lines[..] == Indented(old(lines[..]), regions) && violations == Violations(old(lines[..]), regions)
    decreases regions
  {
    violations := [];
    ghost var after, all := Indented(lines[..], regions), Violations(lines[..], regions);
    assert regions[0..] == regions && [] + all == all;
    for k := 0 to |regions|
      invariant Remains(lines[..], regions[k..], violations, after, all)
    {
      RemainsNext(lines[..], regions[k..], violations, after, all);
      assert regions[k..][1..] == regions[k + 1..];
      var found := IndentRegion(lines, regions[k]);
      violations := violations + found;
    }
    assert regions[|regions|..] == [];
  }

  method IndentRegion(lines: array<string>, region: Region) returns (violations: seq<Violation>)
    requires FitsOne(region, lines.Length)
    modifies lines
    ensures lines[..] == IndentedOne(old(lines[..]), region) && violations == ViolationsOne(old(lines[..]), region)
    decreases region
  {
    hide Indented, Violations, Aligned, Faults, Amount, LeastIndent, IndentOf, Blank, Fits;
    violations := [];
    if region.header == region.closer || LeastIndent(lines[..], region.header + 1, region.closer).None? {
      return;
    }
    violations := Align(lines, region);
    var below := ApplyIndent(lines, region.children);
    violations := violations + below;
  }

  /** Put a region's own body and closer where they belong. */
  method Align(lines: array<string>, region: Region) returns (violations: seq<Violation>)
    requires region.header < region.closer < lines.Length && Base(lines[..], region).Some?
    modifies lines
    ensures lines[..] == Aligned(old(lines[..]), region) && violations == Faults(old(lines[..]), region)
  {
    ghost var before := lines[..];
    var headerIndent := IndentOf(lines[region.header]);
    var base := LeastIndent(lines[..], region.header + 1, region.closer).value;
    var amount := headerIndent + INDENT_WIDTH - base;
    assert amount == Amount(before, region);
    LeastIndentIs(before, region.header + 1, region.closer);
    assert CanShift(before, region.header + 1, region.closer, amount);
    Shift(lines, region.header + 1, region.closer, amount);
    assert lines[..] == Shifted(before, region.header + 1, region.closer, Amount(before, region));
    assert lines[..][region.closer] == before[region.closer];
    var off := PutAt(lines, region.closer, headerIndent);
    violations := FaultList(region, amount != 0, off);
  }

  /** Put a line at a column, if it is not there. */
  method PutAt(lines: array<string>, index: nat, column: nat) returns (off: bool)
    requires index < lines.Length
    modifies lines
    ensures off <==> IndentOf(old(lines[index])) != column
    ensures lines[..] == if off then old(lines[..])[index := At(column, old(lines[index]))] else old(lines[..])
  {
    off := IndentOf(lines[index]) != column;
    if off {
      lines[index] := Spaces(column) + Stripped(lines[index]);
    }
  }
}
