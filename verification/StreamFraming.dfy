/** Cutting streamed text into lines.

    What a stream consumes does not depend on how its text was cut into chunks. */
module StreamFraming {
  import opened Texts

  function FirstNewline(text: string): (k: nat)
    ensures k <= |text| && (k < |text| ==> text[k] == '\n')
    ensures forall i :: 0 <= i < k ==> text[i] != '\n'
  {
    if text == [] || text[0] == '\n' then 0 else 1 + FirstNewline(text[1..])
  }

  /** The lines of a text that are ended by a newline. */
  function Complete(text: string): seq<string> {
    var k := FirstNewline(text);
    if k == |text| then [] else [text[..k]] + Complete(text[k + 1..])
  }

  /** What follows the last newline. */
  function Rest(text: string): (rest: string)
    ensures |rest| <= |text|
  {
    var k := FirstNewline(text);
    if k == |text| then text else Rest(text[k + 1..])
  }

  function Lines(text: string): seq<string> {
    Complete(text) + [Rest(text)]
  }

  function Unlines(lines: seq<string>, rest: string): string {
    if lines == [] then rest else lines[0] + "\n" + Unlines(lines[1..], rest)
  }

  predicate OneLine(line: string) {
    '\n' !in line
  }

  lemma FirstNewlineIs(text: string, k: nat)
    requires k < |text| && text[k] == '\n' && forall i :: 0 <= i < k ==> text[i] != '\n'
    ensures FirstNewline(text) == k
  {
  }

  lemma FirstLineOf(line: string, text: string)
    requires OneLine(line)
    ensures Complete(line + ("\n" + text)) == [line] + Complete(text) && Rest(line + ("\n" + text)) == Rest(text)
  {
    var all, k := line + ("\n" + text), |line|;
    assert all[k] == '\n' && all[..k] == line && all[k + 1..] == text;
    FirstNewlineIs(all, k);
  }

  lemma {:induction false} UnlinesOfLines(text: string)
    ensures Unlines(Complete(text), Rest(text)) == text
    decreases |text|
  {
    var k := FirstNewline(text);
    if k < |text| {
      UnlinesOfLines(text[k + 1..]);
      CutAt(text, k);
      UnlinesCons(text[..k], Complete(text[k + 1..]), Rest(text[k + 1..]));
    }
  }

  lemma UnlinesCons(line: string, lines: seq<string>, rest: string)
    ensures Unlines([line] + lines, rest) == line + ("\n" + Unlines(lines, rest))
  {
    assert ([line] + lines)[1..] == lines;
  }

  lemma {:induction false} LinesOfJoined(lines: seq<string>, rest: string)
    requires (forall i :: 0 <= i < |lines| ==> OneLine(lines[i])) && OneLine(rest)
    ensures Complete(Unlines(lines, rest)) == lines && Rest(Unlines(lines, rest)) == rest
    decreases |lines|
  {
    if lines == [] {
      CompleteOfLine(rest);
    } else {
      assert lines == [lines[0]] + lines[1..];
      UnlinesCons(lines[0], lines[1..], rest);
      FirstLineOf(lines[0], Unlines(lines[1..], rest));
      LinesOfJoined(lines[1..], rest);
    }
  }

  /** Splitting into lines is the one way of writing a text as lines and a rest. */
  lemma LinesOfUnlines(text: string, lines: seq<string>, rest: string)
    requires (forall i :: 0 <= i < |lines| ==> OneLine(lines[i])) && OneLine(rest)
    ensures text == Unlines(lines, rest) <==> Complete(text) == lines && Rest(text) == rest
  {
    UnlinesOfLines(text);
    LinesOfJoined(lines, rest);
  }

  /** More text completes first what was left over. */
  lemma {:induction false} LinesAppend(a: string, b: string)
    ensures Complete(a + b) == Complete(a) + Complete(Rest(a) + b)
    ensures Rest(a + b) == Rest(Rest(a) + b)
    decreases |a|
  {
    var k := FirstNewline(a);
    if k < |a| {
      var line, more := a[..k], a[k + 1..];
      CutAt(a, k);
      assert a + b == line + ("\n" + (more + b));
      FirstLineOf(line, more + b);
      LinesAppend(more, b);
      ConsAppend(line, Complete(more), Complete(Rest(more) + b));
    }
  }

  lemma ConsAppend(line: string, a: seq<string>, b: seq<string>)
    ensures [line] + (a + b) == ([line] + a) + b
  {
  }

  lemma {:induction false} RestIsOneLine(text: string)
    ensures OneLine(Rest(text))
    decreases |text|
  {
    var k := FirstNewline(text);
    if k < |text| {
      RestIsOneLine(text[k + 1..]);
    }
  }

  lemma CompleteOfLine(line: string)
    requires OneLine(line)
    ensures Complete(line) == [] && Rest(line) == line
  {
  }

  /** Taking the lines of a text one after the other. */
  function Consume<S>(step: (S, string) -> S, s: S, lines: seq<string>): S
    decreases |lines|
  {
    if lines == [] then s else Consume(step, step(s, lines[0]), lines[1..])
  }

  /** Consuming what is buffered comes to a result. */
  ghost predicate Yields<S(!new)>(step: (S, string) -> S, s: S, buffer: string, result: (S, string)) {
    result == (Consume(step, s, Complete(buffer)), Rest(buffer))
  }

  lemma YieldsLine<S(!new)>(step: (S, string) -> S, s: S, buffer: string, result: (S, string))
    requires Yields(step, s, buffer, result) && FirstNewline(buffer) < |buffer|
    ensures var k := FirstNewline(buffer);
            Yields(step, step(s, buffer[..k]), buffer[k + 1..], result)
  {
    hide FirstNewline;
    var k := FirstNewline(buffer);
    assert ([buffer[..k]] + Complete(buffer[k + 1..]))[1..] == Complete(buffer[k + 1..]);
  }

  lemma {:induction false} ConsumeAppend<S>(step: (S, string) -> S, s: S, a: seq<string>, b: seq<string>)
    ensures Consume(step, s, a + b) == Consume(step, Consume(step, s, a), b)
    decreases |a|
  {
    if a == [] {
      assert a + b == b;
    } else {
      assert (a + b)[1..] == a[1..] + b;
      ConsumeAppend(step, step(s, a[0]), a[1..], b);
    }
  }

  // ----- Chunks -----

  function Concat(chunks: seq<string>): string {
    if chunks == [] then "" else chunks[0] + Concat(chunks[1..])
  }

  /** Consumer state and buffer after feeding a chunk. */
  function Fed<S>(step: (S, string) -> S, at: (S, string), chunk: string): (S, string) {
    (Consume(step, at.0, Complete(at.1 + chunk)), Rest(at.1 + chunk))
  }

  /** A last unterminated line is consumed if there is one. */
  function Finished<S>(step: (S, string) -> S, at: (S, string)): S {
    if at.1 == "" then at.0 else step(at.0, at.1)
  }

  function FedAll<S>(step: (S, string) -> S, at: (S, string), chunks: seq<string>): (S, string)
    decreases |chunks|
  {
    if chunks == [] then at else FedAll(step, Fed(step, at, chunks[0]), chunks[1..])
  }

  lemma FedTwice<S>(step: (S, string) -> S, at: (S, string), a: string, b: string)
    ensures Fed(step, Fed(step, at, a), b) == Fed(step, at, a + b)
  {
    LinesAppend(at.1 + a, b);
    assert at.1 + a + b == at.1 + (a + b);
    ConsumeAppend(step, at.0, Complete(at.1 + a), Complete(Rest(at.1 + a) + b));
  }

  lemma {:induction false} FedAllIsFed<S>(step: (S, string) -> S, at: (S, string), chunks: seq<string>)
    requires OneLine(at.1)
    ensures FedAll(step, at, chunks) == Fed(step, at, Concat(chunks))
    decreases |chunks|
  {
    if chunks == [] {
      assert at.1 + "" == at.1;
      CompleteOfLine(at.1);
    } else {
      RestIsOneLine(at.1 + chunks[0]);
      FedAllIsFed(step, Fed(step, at, chunks[0]), chunks[1..]);
      FedTwice(step, at, chunks[0], Concat(chunks[1..]));
    }
  }

  /** However a text is cut into chunks, feeding them and finishing consumes its lines, each once and in
      order, as long as an empty line does nothing. */
  lemma ChunksDoNotMatter<S>(step: (S, string) -> S, s: S, chunks: seq<string>)
    requires forall t :: step(t, "") == t
    ensures Finished(step, FedAll(step, (s, ""), chunks)) == Consume(step, s, Lines(Concat(chunks)))
  {
    var text := Concat(chunks);
    FedAllIsFed(step, (s, ""), chunks);
    assert "" + text == text;
    ConsumeAppend(step, s, Complete(text), [Rest(text)]);
    assert [Rest(text)][1..] == [];
  }
}
