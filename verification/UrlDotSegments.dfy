/** Dot-segment removal (RFC 3986 section 5.2.4): the rewriting loop computes what a stack of
    segments does. */
module UrlDotSegments {
  import opened UrlText

  /** What has been output: a first segment without a leading slash, then slash-led segments.
      A rooted path never has a nonempty head. */
  datatype Output = Output(head: string, stack: seq<string>) {
    function Text(): string {
      head + Render(stack)
    }

    function Push(segment: string): Output {
      Output(head, stack + [segment])
    }

    function Pop(): Output {
      if stack == [] then Output("", []) else Output(head, stack[..|stack| - 1])
    }
  }

  /** The reference machine: push, skip ".", pop on ".."; a final dot segment leaves an empty one. */
  function Machine(out: Output, segs: seq<string>): Output
    requires |segs| > 0
    decreases |segs|
  {
    var rest := segs[1..];
    if rest == [] then
      if segs[0] == "." then out.Push("")
      else if segs[0] == ".." then out.Pop().Push("")
      else out.Push(segs[0])
    else if segs[0] == "." then Machine(out, rest)
    else if segs[0] == ".." then Machine(out.Pop(), rest)
    else Machine(out.Push(segs[0]), rest)
  }

  /** Leading "../" and "./" are dropped before anything is output. */
  function StripLeading(path: string): string {
    if "../" <= path then StripLeading(path[3..])
    else if "./" <= path then StripLeading(path[2..])
    else path
  }

  /** A path left to process after something was output is empty or rooted. */
  function Finish(out: Output, path: string): Output {
    if path == "" then out else Machine(out, Segments(path[1..]))
  }

  function Start(path: string): Output {
    var p := StripLeading(path);
    if p == "" || p == "." || p == ".." then Output("", [])
    else if p[0] == '/' then Finish(Output("", []), p)
    else
      var n := First(p, '/');
      Finish(Output(p[..n], []), p[n..])
  }

  function Normalized(path: string): string {
    Start(path).Text()
  }

  predicate Dot(segment: string) {
    segment == "." || segment == ".."
  }

  /** What every reachable output satisfies: slash-free segments, none of them a dot segment. */
  predicate Clean(out: Output) {
    && '/' !in out.head && !Dot(out.head)
    && SlashFree(out.stack)
    && (forall i :: 0 <= i < |out.stack| ==> !Dot(out.stack[i]))
  }

  // ----- The loop -----

  lemma TextPush(out: Output, segment: string)
    ensures out.Push(segment).Text() == out.Text() + "/" + segment
  {
    RenderAppend(out.stack, [segment]);
    assert Render([segment]) == "/" + segment + Render([]);
  }

  /** Cutting the output at its last slash pops its last segment. */
  lemma TextPop(out: Output)
    requires Clean(out)
    ensures var text := out.Text();
            out.Pop().Text() == if '/' in text then text[..Last(text, '/')] else ""
  {
    var text := out.Text();
    if out.stack == [] {
      assert text == out.head;
    } else {
      var butLast := out.Pop();
      var segment := out.stack[|out.stack| - 1];
      assert out == butLast.Push(segment);
      TextPush(butLast, segment);
      var n := |butLast.Text()|;
      assert text[n] == '/' && text[n + 1..] == segment;
      LastIs(text, '/', n);
    }
  }

  /** When a slash-free segment comes first, told from the text. */
  lemma FirstSegment(s: string, segment: string)
    requires '/' !in segment
    ensures Segments(s)[0] == segment <==> s == segment || segment + "/" <= s
    ensures s == segment ==> Segments(s) == [segment]
    ensures segment + "/" <= s ==> Segments(s) == [segment] + Segments(s[|segment| + 1..])
  {
    var n := First(s, '/');
    assert n < |s| ==> s == s[..n] + "/" + s[n + 1..];
    if s == segment {
      FirstIs(s, '/', |s|);
    } else if segment + "/" <= s {
      assert s[|segment|] == (segment + "/")[|segment|];
      assert s[..|segment|] == segment;
      FirstIs(s, '/', |segment|);
    }
  }

  /** How the machine reads each of the rooted paths the loop tells apart. */
  lemma ReadDot(out: Output, path: string)
    requires "/./" <= path
    ensures Finish(out, path) == Finish(out, "/" + path[3..])
  {
    assert "." + "/" <= path[1..] && path[1..][2..] == path[3..] == ("/" + path[3..])[1..];
    FirstSegment(path[1..], ".");
  }

  lemma ReadDots(out: Output, path: string)
    requires "/../" <= path
    ensures Finish(out, path) == Finish(out.Pop(), "/" + path[4..])
  {
    assert ".." + "/" <= path[1..] && path[1..][3..] == path[4..] == ("/" + path[4..])[1..];
    FirstSegment(path[1..], "..");
  }

  lemma ReadLastDot(out: Output)
    ensures Finish(out, "/.") == Finish(out, "/")
    ensures Finish(out, "/..") == Finish(out.Pop(), "/")
  {
    FirstSegment("/."[1..], ".");
    FirstSegment("/.."[1..], "..");
    FirstSegment("/"[1..], "");
  }

  lemma OrdinaryFirst(body: string)
    requires !("./" <= body) && body != "." && !("../" <= body) && body != ".."
    ensures !Dot(Segments(body)[0])
  {
    FirstSegment(body, ".");
    FirstSegment(body, "..");
  }

  /** Taking one ordinary segment off a rooted path pushes it. */
  lemma TakeRooted(out: Output, path: string)
    requires path != "" && path[0] == '/'
    requires !("/./" <= path) && path != "/." && !("/../" <= path) && path != "/.."
    ensures var body := path[1..];
            var end := First(body, '/');
            && !Dot(body[..end])
            && Finish(out, path) == Finish(out.Push(body[..end]), body[end..])
  {
    var body := path[1..];
    var end := First(body, '/');
    assert path == "/" + body;
    OrdinaryFirst(body);
    assert Segments(body)[0] == body[..end];
    if end < |body| {
      assert body[end..][1..] == body[end + 1..];
      assert Segments(body)[1..] == Segments(body[end + 1..]);
    }
  }

  // ----- The loop's invariant, and how each branch keeps it -----

  /** Before anything is output the path is only stripped; afterwards the output and what is left of
      the path still determine the result. */
  ghost predicate Invariant(value: string, path: string, output: string, out: Output, started: bool) {
    && output == out.Text() && Clean(out)
    && if started then (path == "" || path[0] == '/') && Finish(out, path) == Start(value)
       else out == Output("", []) && Start(path) == Start(value)
  }

  lemma BeginRooted(value: string, path: string, output: string, out: Output, started: bool)
    requires Invariant(value, path, output, out, started) && path != "" && path[0] == '/'
    ensures Invariant(value, path, output, out, true)
  {
  }

  lemma NotYetStarted(value: string, path: string, output: string, out: Output, started: bool)
    requires Invariant(value, path, output, out, started) && path != "" && path[0] != '/'
    ensures !started
  {
  }

  lemma SkipLeading(value: string, path: string, output: string, out: Output, started: bool)
    requires Invariant(value, path, output, out, started)
    ensures "../" <= path ==> Invariant(value, path[3..], output, out, started)
    ensures "./" <= path ==> Invariant(value, path[2..], output, out, started)
    ensures path == "." || path == ".." ==> Invariant(value, "", output, out, started)
  {
    assert "../" <= path ==> path[0] == '.' && path[1] == '.';
    assert "./" <= path ==> path[0] == '.' && path[1] == '/';
  }

  lemma SkipDot(value: string, path: string, output: string, out: Output)
    requires Invariant(value, path, output, out, true)
    ensures "/./" <= path ==> Invariant(value, "/" + path[3..], output, out, true)
    ensures path == "/." ==> Invariant(value, "/", output, out, true)
  {
    if "/./" <= path {
      ReadDot(out, path);
    }
    ReadLastDot(out);
  }

  lemma PopDots(value: string, path: string, output: string, out: Output)
    requires Invariant(value, path, output, out, true)
    ensures var output' := if '/' in output then output[..Last(output, '/')] else "";
            && ("/../" <= path ==> Invariant(value, "/" + path[4..], output', out.Pop(), true))
            && (path == "/.." ==> Invariant(value, "/", output', out.Pop(), true))
  {
    TextPop(out);
    if "/../" <= path {
      ReadDots(out, path);
    }
    ReadLastDot(out);
  }

  lemma CleanPush(out: Output, segment: string)
    requires Clean(out) && '/' !in segment && !Dot(segment)
    ensures Clean(out.Push(segment))
  {
  }

  lemma HeadIsClean(path: string)
    requires !("../" <= path) && !("./" <= path) && path != "." && path != ".."
    ensures !Dot(path[..First(path, '/')])
  {
    var end := First(path, '/');
    if end < |path| {
      assert path[..end + 1] == path[..end] + "/";
      assert path[..end + 1] <= path;
    } else {
      assert path[..end] == path;
    }
  }

  lemma PushSegment(value: string, path: string, output: string, out: Output)
    requires Invariant(value, path, output, out, true) && path != ""
    requires !("/./" <= path) && path != "/." && !("/../" <= path) && path != "/.."
    ensures var body := path[1..];
            var end := First(body, '/');
            Invariant(value, body[end..], output + (path[..1] + body[..end]), out.Push(body[..end]), true)
  {
    hide Start, Normalized, Clean, Finish;
    var body := path[1..];
    var end := First(body, '/');
    TakeRooted(out, path);
    CleanPush(out, body[..end]);
    TextPush(out, body[..end]);
    assert path[..1] == "/";
    assert output + (path[..1] + body[..end]) == output + "/" + body[..end];
  }

  lemma PushHead(value: string, path: string, output: string, out: Output)
    requires Invariant(value, path, output, out, false) && path != "" && path[0] != '/'
    requires !("../" <= path) && !("./" <= path) && path != "." && path != ".."
    ensures var end := First(path, '/');
            Invariant(value, path[end..], output + path[..end], Output(path[..end], []), true)
  {
    var end := First(path, '/');
    HeadIsClean(path);
    assert Start(path) == Finish(Output(path[..end], []), path[end..]);
    assert output == "" && output + path[..end] == path[..end] == path[..end] + Render([]);
  }

  lemma InvariantStarts(value: string)
    ensures Invariant(value, value, "", Output("", []), false)
  {
    hide Start;
  }

  lemma InvariantEnds(value: string, output: string, out: Output, started: bool)
    requires Invariant(value, "", output, out, started)
    ensures output == Normalized(value)
  {
  }

  method RemoveDotSegments(value: string) returns (output: string)
    ensures output == Normalized(value)
  {
    output := "";
    var path := value;
    ghost var started, out := false, Output("", []);
    InvariantStarts(value);
    hide Invariant, Normalized, Last;
    while path != ""
      invariant Invariant(value, path, output, out, started)
      decreases |path|, if path == "/." || path == "/.." then 1 else 0
    {
      if path[0] == '/' {
        BeginRooted(value, path, output, out, started);
        started := true;
      } else {
        NotYetStarted(value, path, output, out, started);
      }
      if "../" <= path {
        SkipLeading(value, path, output, out, started);
        path := path[3..];
      } else if "./" <= path {
        SkipLeading(value, path, output, out, started);
        path := path[2..];
      } else if "/./" <= path {
        SkipDot(value, path, output, out);
        path := "/" + path[3..];
      } else if path == "/." {
        SkipDot(value, path, output, out);
        path := "/";
      } else if "/../" <= path {
        PopDots(value, path, output, out);
        path := "/" + path[4..];
        output := if '/' in output then output[..Last(output, '/')] else "";
        out := out.Pop();
      } else if path == "/.." {
        PopDots(value, path, output, out);
        path := "/";
        output := if '/' in output then output[..Last(output, '/')] else "";
        out := out.Pop();
      } else if path == "." || path == ".." {
        SkipLeading(value, path, output, out, started);
        path := "";
      } else {
        var body := if path[0] == '/' then path[1..] else path;
        var end := First(body, '/');
        var segment := (if path[0] == '/' then path[..1] else "") + body[..end];
        if path[0] == '/' {
          PushSegment(value, path, output, out);
          out := out.Push(body[..end]);
        } else {
          PushHead(value, path, output, out);
          out := Output(body[..end], []);
          assert segment == body[..end];
        }
        started := true;
        path := body[end..];
        output := output + segment;
      }
    }
    InvariantEnds(value, output, out, started);
  }

  // ----- What dot-segment removal guarantees -----

  lemma {:induction false} MachineClean(out: Output, segs: seq<string>)
    requires |segs| > 0 && Clean(out) && SlashFree(segs)
    ensures Clean(Machine(out, segs)) && Machine(out, segs).stack != []
    ensures out.head == "" ==> Machine(out, segs).head == ""
    decreases |segs|
  {
    var rest := segs[1..];
    if rest != [] {
      MachineClean(if segs[0] == "." then out else if segs[0] == ".." then out.Pop() else out.Push(segs[0]), rest);
    }
  }

  lemma StartClean(path: string)
    ensures Clean(Start(path))
    ensures StripLeading(path) != "" && StripLeading(path)[0] == '/' ==> Start(path).head == "" && Start(path).stack != []
    ensures StripLeading(path) == "" ==> Start(path) == Output("", [])
  {
    var p := StripLeading(path);
    if p != "" && p != "." && p != ".." {
      var end := First(p, '/');
      SegmentsSlashFree(p[1..]);
      if p[0] == '/' {
        MachineClean(Output("", []), Segments(p[1..]));
      } else {
        StripLeadingStops(path);
        HeadIsClean(p);
        if end < |p| {
          SegmentsSlashFree(p[end..][1..]);
          MachineClean(Output(p[..end], []), Segments(p[end..][1..]));
        }
      }
    }
  }

  lemma {:induction false} StripLeadingStops(path: string)
    ensures !("../" <= StripLeading(path)) && !("./" <= StripLeading(path))
    decreases |path|
  {
    if "../" <= path {
      StripLeadingStops(path[3..]);
    } else if "./" <= path {
      StripLeadingStops(path[2..]);
    }
  }

  /** No segment of the result is "." or "..", whatever the path. */
  lemma NormalizedHasNoDotSegments(path: string)
    ensures forall segment :: segment in Segments(Normalized(path)) ==> !Dot(segment)
  {
    StartClean(path);
    SegmentsOfRender(Start(path).head, Start(path).stack);
  }

  lemma RenderTail(segs: seq<string>)
    requires |segs| > 0 && SlashFree(segs)
    ensures Render(segs) != "" && Render(segs)[0] == '/' && Segments(Render(segs)[1..]) == segs
  {
    assert Render(segs) == "/" + (segs[0] + Render(segs[1..]));
    SegmentsOfRender(segs[0], segs[1..]);
    assert [segs[0]] + segs[1..] == segs;
  }

  lemma StripLeadingRooted(path: string)
    requires path == "" || path[0] == '/'
    ensures StripLeading(path) == path && path != "." && path != ".."
  {
    assert "../"[0] == '.' && "./"[0] == '.';
  }

  /** A rooted path stays rooted, and is what the segment stack leaves of it. */
  lemma NormalizedRooted(segs: seq<string>)
    requires |segs| > 0 && SlashFree(segs)
    ensures Normalized(Render(segs)) == Render(Machine(Output("", []), segs).stack)
    ensures "/" <= Normalized(Render(segs))
  {
    RenderTail(segs);
    StripLeadingRooted(Render(segs));
    MachineClean(Output("", []), segs);
    var out := Machine(Output("", []), segs);
    assert Start(Render(segs)) == out;
    assert out.Text() == Render(out.stack);
  }

  /** Ordinary segments are pushed as they come. */
  lemma {:induction false} MachineOfOrdinary(out: Output, segs: seq<string>)
    requires |segs| > 0 && forall i :: 0 <= i < |segs| ==> !Dot(segs[i])
    ensures Machine(out, segs) == Output(out.head, out.stack + segs)
    decreases |segs|
  {
    if |segs| > 1 {
      MachineOfOrdinary(out.Push(segs[0]), segs[1..]);
      assert out.stack + [segs[0]] + segs[1..] == out.stack + segs;
    } else {
      assert segs == [segs[0]];
    }
  }

  lemma {:induction false} FinishOfRender(out: Output, segs: seq<string>)
    requires SlashFree(segs) && forall i :: 0 <= i < |segs| ==> !Dot(segs[i])
    ensures Finish(out, Render(segs)) == Output(out.head, out.stack + segs)
  {
    if segs != [] {
      RenderTail(segs);
      MachineOfOrdinary(out, segs);
    }
  }

  /** A path that starts with an ordinary first segment is not stripped, and makes it the head. */
  lemma StartOrdinary(head: string, rest: string)
    requires head != "" && '/' !in head && !Dot(head) && (rest == "" || rest[0] == '/')
    ensures Start(head + rest) == Finish(Output(head, []), rest)
  {
    var path := head + rest;
    FirstIs(path, '/', |head|);
    assert path[..|head|] == head && path[|head|..] == rest;
    assert path[0] == head[0];
    assert path == "." || path == ".." ==> '/' !in path && head == path;
    if "../" <= path {
      FirstIs(path, '/', 2);
    } else if "./" <= path {
      FirstIs(path, '/', 1);
    }
  }

  lemma RenderLeads(segs: seq<string>)
    ensures Render(segs) == "" || Render(segs)[0] == '/'
  {
  }

  /** A clean output is a fixed point of dot-segment removal. */
  lemma CleanIsNormal(out: Output)
    requires Clean(out)
    ensures Normalized(out.Text()) == out.Text()
  {
    RenderLeads(out.stack);
    FinishOfRender(Output(out.head, []), out.stack);
    assert [] + out.stack == out.stack;
    if out.head == "" {
      assert out.Text() == Render(out.stack);
      StripLeadingRooted(out.Text());
    } else {
      StartOrdinary(out.head, Render(out.stack));
    }
  }

  lemma NormalizedIsIdempotent(path: string)
    ensures Normalized(Normalized(path)) == Normalized(path)
  {
    StartClean(path);
    CleanIsNormal(Start(path));
  }

  // ----- No character is invented -----

  lemma {:induction false} RenderWithout(segs: seq<string>, c: char)
    ensures c != '/' && (forall i :: 0 <= i < |segs| ==> c !in segs[i]) ==> c !in Render(segs)
  {
    if segs != [] {
      RenderWithout(segs[1..], c);
    }
  }

  lemma {:induction false} SegmentsWithout(s: string, c: char)
    requires c !in s
    ensures forall i :: 0 <= i < |Segments(s)| ==> c !in Segments(s)[i]
    decreases |s|
  {
    var n := First(s, '/');
    if n < |s| {
      SegmentsWithout(s[n + 1..], c);
    }
  }

  lemma {:induction false} MachineWithout(out: Output, segs: seq<string>, c: char)
    requires |segs| > 0 && c !in out.head
    requires forall i :: 0 <= i < |out.stack| ==> c !in out.stack[i]
    requires forall i :: 0 <= i < |segs| ==> c !in segs[i]
    ensures c !in Machine(out, segs).head
    ensures forall i :: 0 <= i < |Machine(out, segs).stack| ==> c !in Machine(out, segs).stack[i]
    decreases |segs|
  {
    if |segs| > 1 {
      MachineWithout(if segs[0] == "." then out else if segs[0] == ".." then out.Pop() else out.Push(segs[0]), segs[1..], c);
    }
  }

  lemma {:induction false} StripLeadingWithout(path: string, c: char)
    requires c !in path
    ensures c !in StripLeading(path)
    decreases |path|
  {
    if "../" <= path {
      StripLeadingWithout(path[3..], c);
    } else if "./" <= path {
      StripLeadingWithout(path[2..], c);
    }
  }

  /** Every character of the result but the slash is one of the path. */
  lemma NormalizedWithout(path: string, c: char)
    requires c !in path && c != '/'
    ensures c !in Normalized(path)
  {
    var p := StripLeading(path);
    StripLeadingWithout(path, c);
    if p != "" && p != "." && p != ".." {
      var end := First(p, '/');
      if p[0] == '/' {
        SegmentsWithout(p[1..], c);
        MachineWithout(Output("", []), Segments(p[1..]), c);
      } else if end < |p| {
        SegmentsWithout(p[end..][1..], c);
        MachineWithout(Output(p[..end], []), Segments(p[end..][1..]), c);
      }
    }
    RenderWithout(Start(path).stack, c);
  }

  // ----- Paths without two slashes in a row -----

  predicate NoDoubleSlash(s: string) {
    forall i :: 0 <= i < |s| - 1 ==> s[i] != '/' || s[i + 1] != '/'
  }

  /** Only the last segment is empty, if any is. */
  predicate FilledButLast(segs: seq<string>) {
    forall i :: 0 <= i < |segs| - 1 ==> segs[i] != ""
  }

  lemma {:induction false} SegmentsFilled(s: string)
    requires NoDoubleSlash(s) && (s == "" || s[0] != '/')
    ensures FilledButLast(Segments(s))
    decreases |s|
  {
    var n := First(s, '/');
    if n < |s| {
      var rest := s[n + 1..];
      assert rest == "" || rest[0] == s[n + 1];
      assert forall i :: 0 <= i < |rest| ==> rest[i] == s[n + 1 + i];
      SegmentsFilled(rest);
    }
  }

  lemma {:induction false} MachineFilled(out: Output, segs: seq<string>)
    requires |segs| > 0 && FilledButLast(segs) && forall i :: 0 <= i < |out.stack| ==> out.stack[i] != ""
    ensures FilledButLast(Machine(out, segs).stack)
    decreases |segs|
  {
    var rest := segs[1..];
    if rest != [] {
      assert segs[0] != "" && forall i :: 0 <= i < |rest| - 1 ==> rest[i] == segs[i + 1];
      MachineFilled(if segs[0] == "." then out else if segs[0] == ".." then out.Pop() else out.Push(segs[0]), rest);
    }
  }

  lemma {:induction false} StripLeadingNoDouble(path: string)
    requires NoDoubleSlash(path)
    ensures NoDoubleSlash(StripLeading(path))
    decreases |path|
  {
    if "../" <= path {
      assert forall i :: 0 <= i < |path[3..]| ==> path[3..][i] == path[3 + i];
      assert NoDoubleSlash(path[3..]);
      StripLeadingNoDouble(path[3..]);
    } else if "./" <= path {
      assert forall i :: 0 <= i < |path[2..]| ==> path[2..][i] == path[2 + i];
      assert NoDoubleSlash(path[2..]);
      StripLeadingNoDouble(path[2..]);
    }
  }

  lemma FinishFilled(out: Output, path: string)
    requires out.stack == [] && NoDoubleSlash(path) && (path == "" || path[0] == '/')
    ensures FilledButLast(Finish(out, path).stack)
  {
    if path != "" {
      var tail := path[1..];
      assert forall i :: 0 <= i < |tail| ==> tail[i] == path[1 + i];
      SegmentsFilled(tail);
      MachineFilled(out, Segments(tail));
    }
  }

  lemma TextOfFilled(out: Output)
    requires Clean(out) && FilledButLast(out.stack)
    ensures !("//" <= out.Text())
  {
    if out.head != "" {
      assert out.Text()[0] == out.head[0] != '/';
    } else if out.stack != [] {
      assert out.Text() == Render(out.stack) == "/" + out.stack[0] + Render(out.stack[1..]);
      if out.stack[0] == "" {
        assert |out.stack| == 1 && out.stack[1..] == [];
      } else {
        assert out.Text()[1] == out.stack[0][0] != '/';
      }
    }
  }

  /** A path without two slashes in a row does not come to start with two. */
  lemma NormalizedWithoutDoubleSlash(path: string)
    requires NoDoubleSlash(path)
    ensures !("//" <= Normalized(path))
  {
    var p := StripLeading(path);
    StripLeadingNoDouble(path);
    StartClean(path);
    if p != "" && p != "." && p != ".." {
      if p[0] == '/' {
        FinishFilled(Output("", []), p);
      } else {
        var n := First(p, '/');
        assert forall i :: 0 <= i < |p[n..]| ==> p[n..][i] == p[n + i];
        FinishFilled(Output(p[..n], []), p[n..]);
      }
    }
    TextOfFilled(Start(path));
  }

  // ----- Which paths come to start with two slashes -----

  /** How many segments stand when n of a list have been read: "." leaves them, ".." takes one away. */
  function Height(segs: seq<string>, n: nat): nat
    requires n <= |segs|
  {
    if n == 0 then 0
    else
      var before := Height(segs, n - 1);
      if segs[n - 1] == "." then before
      else if segs[n - 1] != ".." then before + 1
      else if before == 0 then 0 else before - 1
  }

  /** Segment k is put at the bottom and has not been taken away when n have been read. */
  predicate Stands(segs: seq<string>, k: nat, n: nat)
    requires k < n <= |segs|
  {
    Height(segs, k) == 0 && !Dot(segs[k]) && forall m :: k < m <= n ==> Height(segs, m) >= 1
  }

  /** Some ".." finds nothing to take away. */
  predicate Underflows(segs: seq<string>, n: nat)
    requires n <= |segs|
  {
    exists m :: 0 <= m < n && segs[m] == ".." && Height(segs, m) == 0
  }

  /** An empty segment is left at the bottom with something above it, and nothing before it: what is before the
      first slash is empty, or a ".." takes it away. A dot segment at the end leaves an empty one. */
  predicate EmptyAtBottom(head: string, segs: seq<string>)
    requires |segs| > 0
  {
    && (head == "" || Underflows(segs, |segs|))
    && Height(segs, |segs|) + (if Dot(segs[|segs| - 1]) then 1 else 0) >= 2
    && exists k :: 0 <= k < |segs| && segs[k] == "" && Stands(segs, k, |segs|)
  }

  /** What has been output when n segments have been read. */
  function Partial(out: Output, segs: seq<string>, n: nat): Output
    requires n <= |segs|
  {
    if n == 0 then out
    else
      var before := Partial(out, segs, n - 1);
      if segs[n - 1] == "." then before else if segs[n - 1] == ".." then before.Pop() else before.Push(segs[n - 1])
  }

  lemma {:induction false} PartialFirst(out: Output, segs: seq<string>, n: nat)
    requires 0 < n <= |segs|
    ensures Partial(out, segs, n) == Partial(Partial(out, segs, 1), segs[1..], n - 1)
    decreases n
  {
    if n > 1 {
      PartialFirst(out, segs, n - 1);
    }
  }

  lemma {:induction false} MachineIsPartial(out: Output, segs: seq<string>)
    requires |segs| > 0
    ensures var last := Partial(out, segs, |segs|);
            Machine(out, segs) == if Dot(segs[|segs| - 1]) then last.Push("") else last
    decreases |segs|
  {
    if |segs| > 1 {
      MachineIsPartial(Partial(out, segs, 1), segs[1..]);
      PartialFirst(out, segs, |segs|);
    }
  }

  lemma {:induction false} PartialHeight(head: string, segs: seq<string>, n: nat)
    requires n <= |segs|
    ensures |Partial(Output(head, []), segs, n).stack| == Height(segs, n)
    ensures Partial(Output(head, []), segs, n).head == if Underflows(segs, n) then "" else head
  {
    if n > 0 {
      PartialHeight(head, segs, n - 1);
      UnderflowsNext(segs, n);
    }
  }

  /** Segment k is put down and has not been taken away when n have been read. */
  predicate Survives(segs: seq<string>, k: nat, n: nat)
    requires k < n <= |segs|
  {
    !Dot(segs[k]) && forall m :: k < m <= n ==> Height(segs, m) > Height(segs, k)
  }

  /** Segment k stands on the stack at the height it was put down at. */
  predicate SitsAt(segs: seq<string>, k: nat, stack: seq<string>)
    requires k < |segs|
  {
    Height(segs, k) < |stack| && stack[Height(segs, k)] == segs[k]
  }

  ghost predicate Holds(segs: seq<string>, n: nat, stack: seq<string>, p: nat)
    requires n <= |segs| && p < |stack|
  {
    exists k :: 0 <= k < n && Survives(segs, k, n) && Height(segs, k) == p && stack[p] == segs[k]
  }

  /** The stack is exactly what survives, each at the height it was put down at. */
  ghost predicate Surviving(segs: seq<string>, n: nat, stack: seq<string>)
    requires n <= |segs|
  {
    && |stack| == Height(segs, n)
    && (forall k :: 0 <= k < n && Survives(segs, k, n) ==> SitsAt(segs, k, stack))
    && (forall p :: 0 <= p < |stack| ==> Holds(segs, n, stack, p))
  }

  lemma SurvivesNext(segs: seq<string>, k: nat, n: nat)
    requires k < n < |segs|
    ensures Survives(segs, k, n + 1) <==> Survives(segs, k, n) && Height(segs, n + 1) > Height(segs, k)
  {
  }

  lemma SurvivesFirst(segs: seq<string>, n: nat)
    requires n < |segs|
    ensures Survives(segs, n, n + 1) <==> !Dot(segs[n])
  {
  }

  /** One segment read. */
  predicate Read(segs: seq<string>, n: nat, stack: seq<string>, next: seq<string>)
    requires n < |segs|
  {
    if segs[n] == "." then next == stack
    else if segs[n] == ".." then next == if stack == [] then [] else stack[..|stack| - 1]
    else next == stack + [segs[n]]
  }

  lemma SurvivorStays(segs: seq<string>, n: nat, stack: seq<string>, next: seq<string>, k: nat)
    requires n < |segs| && Surviving(segs, n, stack) && Read(segs, n, stack, next) && |next| == Height(segs, n + 1)
    requires k <= n && Survives(segs, k, n + 1)
    ensures SitsAt(segs, k, next)
  {
    hide Survives, Height;
    SurvivesFirst(segs, n);
    if k < n {
      SurvivesNext(segs, k, n);
    }
  }

  lemma PlaceStays(segs: seq<string>, n: nat, stack: seq<string>, next: seq<string>, p: nat)
    requires n < |segs| && Surviving(segs, n, stack) && Read(segs, n, stack, next) && |next| == Height(segs, n + 1)
    requires p < |next|
    ensures Holds(segs, n + 1, next, p)
  {
    hide Survives, Height;
    SurvivesFirst(segs, n);
    if p < |stack| {
      assert Holds(segs, n, stack, p);
      var k :| 0 <= k < n && Survives(segs, k, n) && Height(segs, k) == p && stack[p] == segs[k];
      SurvivesNext(segs, k, n);
    } else {
      assert Survives(segs, n, n + 1) && Height(segs, n) == p && next[p] == segs[n];
    }
  }

  lemma SurvivingNext(segs: seq<string>, n: nat, stack: seq<string>, next: seq<string>)
    requires n < |segs| && Surviving(segs, n, stack) && Read(segs, n, stack, next) && |next| == Height(segs, n + 1)
    ensures Surviving(segs, n + 1, next)
  {
    hide Survives, Height, Holds, Read, SitsAt;
    var m := n + 1;
    forall k | 0 <= k < m && Survives(segs, k, m)
      ensures SitsAt(segs, k, next)
    {
      SurvivorStays(segs, n, stack, next, k);
    }
    forall p | 0 <= p < |next|
      ensures Holds(segs, m, next, p)
    {
      PlaceStays(segs, n, stack, next, p);
    }
  }

  /** What the machine leaves, told by heights: the segments that survive, in order, and an empty one after a
      dot segment at the end. */
  lemma MachineLeavesSurvivors(head: string, segs: seq<string>)
    requires |segs| > 0
    ensures var stack := Machine(Output(head, []), segs).stack;
            var ends := if Dot(segs[|segs| - 1]) then 1 else 0;
            && |stack| == Height(segs, |segs|) + ends && (ends == 1 ==> stack[|stack| - 1] == "")
            && Surviving(segs, |segs|, stack[..|stack| - ends])
  {
    hide Surviving, Height, Machine, Partial;
    MachineIsPartial(Output(head, []), segs);
    PartialSurvives(head, segs, |segs|);
    PartialHeight(head, segs, |segs|);
    var stack := Partial(Output(head, []), segs, |segs|).stack;
    assert (stack + [""])[..|stack|] == stack == stack[..|stack|];
  }

  lemma {:induction false} PartialSurvives(head: string, segs: seq<string>, n: nat)
    requires n <= |segs|
    ensures Surviving(segs, n, Partial(Output(head, []), segs, n).stack)
  {
    hide Surviving, Height;
    PartialHeight(head, segs, n);
    if n > 0 {
      PartialSurvives(head, segs, n - 1);
      SurvivingNext(segs, n - 1, Partial(Output(head, []), segs, n - 1).stack, Partial(Output(head, []), segs, n).stack);
    } else {
      NothingSurvives(segs);
    }
  }

  lemma NothingSurvives(segs: seq<string>)
    ensures Surviving(segs, 0, [])
  {
  }

  lemma UnderflowsNext(segs: seq<string>, n: nat)
    requires 0 < n <= |segs|
    ensures Underflows(segs, n) <==> Underflows(segs, n - 1) || (segs[n - 1] == ".." && Height(segs, n - 1) == 0)
  {
  }

  lemma BottomNext(out: Output, segs: seq<string>, n: nat)
    requires 0 < n <= |segs| && Partial(out, segs, n).stack != []
    ensures Partial(out, segs, n - 1).stack != [] ==> Partial(out, segs, n).stack[0] == Partial(out, segs, n - 1).stack[0]
    ensures Partial(out, segs, n - 1).stack == [] ==> !Dot(segs[n - 1]) && Partial(out, segs, n).stack[0] == segs[n - 1]
  {
  }

  lemma NothingStands(segs: seq<string>)
    ensures Height(segs, 0) == 0
  {
  }

  lemma StandsFirst(segs: seq<string>, n: nat)
    requires 0 < n <= |segs| && Height(segs, n - 1) == 0 && Height(segs, n) > 0 && !Dot(segs[n - 1])
    ensures Stands(segs, n - 1, n)
  {
    hide Height, Dot;
  }

  lemma StandsNext(segs: seq<string>, k: nat, n: nat)
    requires k < n - 1 < |segs| && Stands(segs, k, n - 1) && Height(segs, n) > 0
    ensures Stands(segs, k, n)
  {
    hide Height;
  }

  /** The segment at the bottom is the one that has stood there since. */
  lemma {:induction false} BottomStands(head: string, segs: seq<string>, n: nat)
    returns (k: nat)
    requires n <= |segs| && Height(segs, n) > 0
    ensures k < n && Stands(segs, k, n)
    ensures Partial(Output(head, []), segs, n).stack != [] && Partial(Output(head, []), segs, n).stack[0] == segs[k]
  {
    hide Height, Partial, Underflows, Stands, Dot;
    NothingStands(segs);
    PartialHeight(head, segs, n);
    PartialHeight(head, segs, n - 1);
    BottomNext(Output(head, []), segs, n);
    if Height(segs, n - 1) == 0 {
      k := n - 1;
      StandsFirst(segs, n);
    } else {
      k := BottomStands(head, segs, n - 1);
      StandsNext(segs, k, n);
    }
  }

  lemma StandsAlone(segs: seq<string>, k: nat, l: nat, n: nat)
    requires k < n <= |segs| && l < n && Stands(segs, k, n) && Stands(segs, l, n)
    ensures k == l
  {
  }

  lemma TextStartsIff(out: Output)
    requires Clean(out)
    ensures "//" <= out.Text() <==> out.head == "" && |out.stack| >= 2 && out.stack[0] == ""
  {
    if out.head != "" {
      assert out.Text()[0] == out.head[0] != '/';
    } else if out.stack != [] {
      assert out.Text() == Render(out.stack) == "/" + out.stack[0] + Render(out.stack[1..]);
      RenderLeads(out.stack[1..]);
      if out.stack[0] != "" {
        assert out.Text()[1] == out.stack[0][0] != '/';
      }
    }
  }

  lemma MachineStartsIff(head: string, segs: seq<string>)
    requires |segs| > 0 && Clean(Output(head, [])) && SlashFree(segs)
    ensures "//" <= Machine(Output(head, []), segs).Text() <==> EmptyAtBottom(head, segs)
  {
    hide Height, Stands, Underflows, Partial, Machine, SlashFree;
    var out, n := Output(head, []), |segs|;
    MachineClean(out, segs);
    TextStartsIff(Machine(out, segs));
    MachineIsPartial(out, segs);
    PartialHeight(head, segs, n);
    if Height(segs, n) > 0 {
      var k := BottomStands(head, segs, n);
      forall l | 0 <= l < n && Stands(segs, l, n)
        ensures l == k
      {
        StandsAlone(segs, k, l, n);
      }
    }
  }

  /** A path with a slash in it is read by the machine after what stands before the first one. */
  lemma StartWithSlash(path: string)
    requires var p := StripLeading(path); First(p, '/') < |p|
    ensures var p := StripLeading(path);
            var n := First(p, '/');
            && Start(path) == Machine(Output(p[..n], []), Segments(p[n + 1..])) && Clean(Output(p[..n], []))
            && Segments(p) == [p[..n]] + Segments(p[n + 1..])
  {
    hide Machine, Clean;
    var p := StripLeading(path);
    var n := First(p, '/');
    assert p != "" && p != "." && p != "..";
    assert p[n..][1..] == p[n + 1..];
    StripLeadingStops(path);
    HeadIsCleanOutput(p);
  }

  lemma HeadIsCleanOutput(p: string)
    requires !("../" <= p) && !("./" <= p) && p != "." && p != ".."
    ensures Clean(Output(p[..First(p, '/')], []))
  {
    HeadIsClean(p);
  }

  lemma StartWithout(path: string)
    requires var p := StripLeading(path); First(p, '/') == |p|
    ensures !("//" <= Normalized(path)) && |Segments(StripLeading(path))| == 1
  {
    var p := StripLeading(path);
    if p != "" && p != "." && p != ".." {
      assert Start(path).Text() == p + "" == p;
      assert p[0] != '/';
    }
  }

  /** Read off the segments of a path, leading "../" and "./" aside: it comes to start with two slashes exactly if
      an empty segment is left at the bottom with something above it. */
  lemma NormalizedDoubleSlashIff(path: string)
    ensures var segs := Segments(StripLeading(path));
            "//" <= Normalized(path) <==> |segs| > 1 && EmptyAtBottom(segs[0], segs[1..])
  {
    hide EmptyAtBottom, StripLeading, Start, Segments;
    var p := StripLeading(path);
    var n := First(p, '/');
    if n < |p| {
      StartWithSlash(path);
      SegmentsSlashFree(p[n + 1..]);
      MachineStartsIff(p[..n], Segments(p[n + 1..]));
      assert ([p[..n]] + Segments(p[n + 1..]))[1..] == Segments(p[n + 1..]);
    } else {
      StartWithout(path);
    }
  }
}
