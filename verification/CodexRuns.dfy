/** What a whole Codex run reports: which agent messages are forwarded, and what a command's deltas add up to. */
module CodexRuns {
  import opened Options
  import opened StreamJson
  import opened StreamFraming
  import opened CodexStream

  const START := State(map[], None, [])

  function Run(events: seq<Event>): State
    decreases |events|
  {
    if events == [] then START else After(Run(events[..|events| - 1]), events[|events| - 1])
  }

  function Events(decode: Decoder, lines: seq<string>): (events: seq<Event>)
    ensures |events| == |lines|
  {
    seq(|lines|, i requires 0 <= i < |lines| => Classify(decode, lines[i]))
  }

  lemma {:induction false} ConsumeIsRun(decode: Decoder, lines: seq<string>)
    ensures Consume(LineStep(decode), START, lines) == Run(Events(decode, lines))
    decreases |lines|
  {
    if lines != [] {
      var n := |lines| - 1;
      ConsumeIsRun(decode, lines[..n]);
      assert lines == lines[..n] + [lines[n]] && [lines[n]][1..] == [];
      ConsumeAppend(LineStep(decode), START, lines[..n], [lines[n]]);
      assert Events(decode, lines)[..n] == Events(decode, lines[..n]);
    }
  }

  /** However a run's text is cut into chunks, the stream ends up where the text's lines lead. */
  lemma ChunksRunTheLines(decode: Decoder, chunks: seq<string>)
    ensures Finished(LineStep(decode), FedAll(LineStep(decode), (START, ""), chunks)) == Run(Events(decode, Lines(Concat(chunks))))
  {
    assert Blank("") && Classify(decode, "") == Ignored;
    ChunksDoNotMatter(LineStep(decode), START, chunks);
    ConsumeIsRun(decode, Lines(Concat(chunks)));
  }

  // ----- Agent messages -----

  predicate IsMessage(e: Event) {
    e.MessageCompleted? && e.message.Some? && e.message.value != ""
  }

  /** Whether an item's event comes after a position. */
  ghost predicate Followed(events: seq<Event>, i: nat) {
    exists j :: i < j < |events| && !events[j].Ignored?
  }

  /** The messages among the first n events that something follows, in order. */
  ghost function FollowedMessages(events: seq<Event>, n: nat): seq<string>
    requires n <= |events|
  {
    if n == 0 then []
    else FollowedMessages(events, n - 1)
         + if IsMessage(events[n - 1]) && Followed(events, n - 1) then [events[n - 1].message.value] else []
  }

  function AllMessages(events: seq<Event>): seq<string> {
    if events == [] then []
    else
      var n := |events| - 1;
      AllMessages(events[..n]) + if IsMessage(events[n]) then [events[n].message.value] else []
  }

  /** The messages a callback was told. */
  function MessagesTold(sent: seq<Progress>): seq<string> {
    if sent == [] then []
    else (if sent[0].event == Message then [sent[0].text] else []) + MessagesTold(sent[1..])
  }

  lemma Regrouped<T>(a: seq<T>, b: seq<T>, c: seq<T>)
    ensures a + (b + c) == (a + b) + c
  {
  }

  lemma {:induction false} MessagesToldAppend(a: seq<Progress>, b: seq<Progress>)
    ensures MessagesTold(a + b) == MessagesTold(a) + MessagesTold(b)
  {
    if a == [] {
      assert a + b == b;
    } else {
      assert (a + b)[1..] == a[1..] + b;
      MessagesToldAppend(a[1..], b);
      Regrouped(if a[0].event == Message then [a[0].text] else [], MessagesTold(a[1..]), MessagesTold(b));
    }
  }

  lemma {:induction false} BlockReportsTellNoMessage(blocks: seq<Json>, tool: Option<string>, call: Option<string>)
    ensures MessagesTold(BlockReports(blocks, tool, call)) == []
  {
    if blocks != [] {
      BlockReportsTellNoMessage(blocks[1..], tool, call);
      var first := if TextBlock(blocks[0]) then [Progress(Get(blocks[0].members, "text").text, ToolResult, tool, call)] else [];
      MessagesToldAppend(first, BlockReports(blocks[1..], tool, call));
    }
  }

  lemma ReportsTellNoMessage(outputs: map<string, string>, e: Event)
    ensures MessagesTold(Report(outputs, e)) == []
  {
    if !e.Started? && !ReportsOutput(e) && e.Completed? && e.kind == "mcp_tool_call" {
      match Get(e.item, "result")
      case Object(result) =>
        if Get(result, "content").List? {
          var tool := if FilledText(Get(e.item, "tool")) then Some(Qualified(Get(e.item, "server"), Get(e.item, "tool").text)) else None;
          BlockReportsTellNoMessage(Get(result, "content").items, tool, CallId(e.item));
        }
      case _ =>
    }
  }

  function Held(pending: Option<string>): seq<string> {
    if pending.Some? && pending.value != "" then [pending.value] else []
  }

  /** An item's event tells the pending message and nothing else of the kind. */
  lemma ToldAfter(s: State, e: Event)
    ensures MessagesTold(After(s, e).sent) == MessagesTold(s.sent) + if e.Ignored? then [] else Held(s.pending)
  {
    if !e.Ignored? {
      ReportsTellNoMessage(s.outputs, e);
      MessagesToldAppend(s.sent + Flushed(s.pending), Report(s.outputs, e));
      MessagesToldAppend(s.sent, Flushed(s.pending));
      assert MessagesTold(Flushed(s.pending)) == Held(s.pending);
    }
  }

  lemma {:induction false} ToldOrPending(events: seq<Event>)
    ensures AllMessages(events) == MessagesTold(Run(events).sent) + Held(Run(events).pending)
    decreases |events|
  {
    if events != [] {
      var n := |events| - 1;
      ToldOrPending(events[..n]);
      ToldAfter(Run(events[..n]), events[n]);
    }
  }

  lemma {:induction false} FollowedBefore(events: seq<Event>, last: Event, n: nat)
    requires n <= |events|
    ensures FollowedMessages(events + [last], n) == if last.Ignored? then FollowedMessages(events, n) else AllMessages(events[..n])
  {
    if n > 0 {
      FollowedBefore(events, last, n - 1);
      assert events[..n][..n - 1] == events[..n - 1];
      var longer := events + [last];
      if last.Ignored? {
        assert Followed(longer, n - 1) <==> Followed(events, n - 1) by {
          if Followed(longer, n - 1) {
            var j :| n - 1 < j < |longer| && !longer[j].Ignored?;
            assert events[j] == longer[j];
          }
          if Followed(events, n - 1) {
            var j :| n - 1 < j < |events| && !events[j].Ignored?;
            assert longer[j] == events[j];
          }
        }
      } else {
        assert !longer[|events|].Ignored?;
        assert Followed(longer, n - 1);
      }
    }
  }

  lemma FollowedNext(events: seq<Event>)
    requires events != []
    ensures var n := |events| - 1;
            FollowedMessages(events, |events|) == if events[n].Ignored? then FollowedMessages(events[..n], n) else AllMessages(events[..n])
  {
    var n := |events| - 1;
    assert events == events[..n] + [events[n]];
    FollowedBefore(events[..n], events[n], n);
    assert events[..n][..n] == events[..n];
    assert !Followed(events, n);
    hide AllMessages;
  }

  /** A non-empty completed message is forwarded, once and in order, exactly if an item's event follows it;
      the one that nothing follows is the answer and stays pending. */
  lemma {:induction false} MessagesForwardedIffFollowed(events: seq<Event>)
    ensures MessagesTold(Run(events).sent) == FollowedMessages(events, |events|)
    ensures AllMessages(events) == FollowedMessages(events, |events|) + Held(Run(events).pending)
    decreases |events|
  {
    ToldOrPending(events);
    if events != [] {
      var n := |events| - 1;
      hide FollowedMessages, MessagesTold, AllMessages, Held, After;
      MessagesForwardedIffFollowed(events[..n]);
      ToldOrPending(events[..n]);
      FollowedNext(events);
      ToldAfter(Run(events[..n]), events[n]);
    }
  }

  // ----- Command output -----

  predicate OutputOf(e: Event, id: string) {
    ReportsOutput(e) && Identified(e.item) && Get(e.item, "id").text == id
  }

  /** The non-empty outputs reported for a command, in order. */
  function Outputs(events: seq<Event>, id: string): seq<string> {
    if events == [] then []
    else
      var n := |events| - 1;
      Outputs(events[..n], id) + if OutputOf(events[n], id) then [Get(events[n].item, "aggregated_output").text] else []
  }

  function Texts(sent: seq<Progress>): string {
    if sent == [] then "" else sent[0].text + Texts(sent[1..])
  }

  /** What a run has told the callback when handling a command's outputs, joined. */
  function Deltas(events: seq<Event>, id: string): string {
    if events == [] then ""
    else
      var n := |events| - 1;
      Deltas(events[..n], id) + if OutputOf(events[n], id) then Texts(Report(Run(events[..n]).outputs, events[n])) else ""
  }

  function Latest(outputs: seq<string>): string {
    if outputs == [] then "" else outputs[|outputs| - 1]
  }

  ghost predicate Growing(outputs: seq<string>) {
    forall k :: 0 < k < |outputs| ==> outputs[k - 1] <= outputs[k]
  }

  lemma {:induction false} LatestIsRemembered(events: seq<Event>, id: string)
    requires id != ""
    ensures Previous(Run(events).outputs, id) == Latest(Outputs(events, id))
    ensures forall k :: 0 <= k < |Outputs(events, id)| ==> Outputs(events, id)[k] != ""
    decreases |events|
  {
    if events != [] {
      LatestIsRemembered(events[..|events| - 1], id);
    }
  }

  lemma DeltaOf(events: seq<Event>, id: string)
    requires events != [] && id != "" && OutputOf(events[|events| - 1], id)
    ensures var n := |events| - 1;
            Texts(Report(Run(events[..n]).outputs, events[n]))
            == Added(Latest(Outputs(events[..n], id)), Get(events[n].item, "aggregated_output").text)
  {
    var n := |events| - 1;
    LatestIsRemembered(events[..n], id);
    var outputs, e := Run(events[..n]).outputs, events[n];
    assert Report(outputs, e) == OutputReport(outputs, e.item);
    var added := Added(Previous(outputs, id), Get(e.item, "aggregated_output").text);
    if added != "" {
      var p := Progress(added, ToolResult, Some("command_execution"), CallId(e.item));
      assert Report(outputs, e) == [p] && [p][1..] == [];
      assert Texts([p]) == p.text + "" == added;
    }
  }

  /** The deltas end in the latest output; there is more before it only if some output did not extend the one
      before. */
  lemma {:induction false} DeltasEndInLatest(events: seq<Event>, id: string)
    returns (surplus: string)
    requires id != ""
    ensures Deltas(events, id) == surplus + Latest(Outputs(events, id))
    ensures surplus == "" <==> Growing(Outputs(events, id))
    decreases |events|
  {
    if events == [] {
      surplus := "";
    } else {
      var n := |events| - 1;
      surplus := DeltasEndInLatest(events[..n], id);
      if OutputOf(events[n], id) {
        var before, output := Outputs(events[..n], id), Get(events[n].item, "aggregated_output").text;
        DeltaOf(events, id);
        LatestIsRemembered(events[..n], id);
        surplus := DeltaStep(before, surplus, output);
        assert Outputs(events, id) == before + [output];
      } else {
        assert Outputs(events, id) == Outputs(events[..n], id) + [] == Outputs(events[..n], id);
        assert Deltas(events, id) == Deltas(events[..n], id) + "" == Deltas(events[..n], id);
      }
    }
  }

  lemma GrowingStep(before: seq<string>, output: string)
    ensures Growing(before + [output]) <==> Growing(before) && Latest(before) <= output
  {
    var outputs := before + [output];
    if Growing(outputs) {
      forall k | 0 < k < |before|
        ensures before[k - 1] <= before[k]
      {
        assert outputs[k - 1] <= outputs[k];
      }
      if before != [] {
        assert outputs[|before| - 1] <= outputs[|before|];
      }
    }
  }

  lemma AddedCompletes(surplus: string, latest: string, output: string)
    requires latest <= output
    ensures surplus + latest + Added(latest, output) == surplus + output
  {
    assert latest + output[|latest|..] == output;
  }

  lemma DeltaStep(before: seq<string>, surplus: string, output: string)
    returns (surplus': string)
    requires surplus == "" <==> Growing(before)
    ensures surplus + Latest(before) + Added(Latest(before), output) == surplus' + output
    ensures surplus' == "" <==> Growing(before + [output])
  {
    GrowingStep(before, output);
    if Latest(before) <= output {
      surplus' := surplus;
      AddedCompletes(surplus, Latest(before), output);
    } else {
      surplus' := surplus + Latest(before);
    }
  }

  /** A command's deltas add up to its latest output exactly if its output has only grown. */
  lemma DeltasRebuildOutputIffGrowing(events: seq<Event>, id: string)
    requires id != ""
    ensures Deltas(events, id) == Latest(Outputs(events, id)) <==> Growing(Outputs(events, id))
  {
    var surplus := DeltasEndInLatest(events, id);
    var latest := Latest(Outputs(events, id));
    if surplus == "" {
      assert "" + latest == latest;
    } else {
      assert |surplus + latest| > |latest|;
    }
  }

  // ----- The deltas among everything told -----

  /** What a callback takes for a delta of a command's output. */
  predicate LooksLikeDelta(p: Progress, id: string) {
    p.event == ToolResult && p.tool == Some("command_execution") && p.call == Some(id)
  }

  function DeltaTexts(sent: seq<Progress>, id: string): string {
    if sent == [] then "" else (if LooksLikeDelta(sent[0], id) then sent[0].text else "") + DeltaTexts(sent[1..], id)
  }

  /** A tool whose results look like a command's output. */
  predicate Impostor(e: Event, id: string) {
    && e.Completed? && e.kind == "mcp_tool_call" && CallId(e.item) == Some(id)
    && FilledText(Get(e.item, "tool")) && Qualified(Get(e.item, "server"), Get(e.item, "tool").text) == "command_execution"
  }

  lemma {:induction false} DeltaTextsAppend(a: seq<Progress>, b: seq<Progress>, id: string)
    ensures DeltaTexts(a + b, id) == DeltaTexts(a, id) + DeltaTexts(b, id)
  {
    hide LooksLikeDelta;
    if a == [] {
      assert a + b == b;
    } else {
      assert (a + b)[1..] == a[1..] + b;
      DeltaTextsAppend(a[1..], b, id);
      Regrouped(if LooksLikeDelta(a[0], id) then a[0].text else "", DeltaTexts(a[1..], id), DeltaTexts(b, id));
    }
  }

  lemma {:induction false} BlocksTellNoDelta(blocks: seq<Json>, tool: Option<string>, call: Option<string>, id: string)
    requires tool != Some("command_execution") || call != Some(id)
    ensures DeltaTexts(BlockReports(blocks, tool, call), id) == ""
  {
    if blocks != [] {
      BlocksTellNoDelta(blocks[1..], tool, call, id);
      var first := if TextBlock(blocks[0]) then [Progress(Get(blocks[0].members, "text").text, ToolResult, tool, call)] else [];
      DeltaTextsAppend(first, BlockReports(blocks[1..], tool, call), id);
    }
  }

  lemma McpTellsNoDelta(outputs: map<string, string>, e: Event, id: string)
    requires e.Completed? && e.kind == "mcp_tool_call" && !Impostor(e, id)
    ensures DeltaTexts(McpReport(e.item), id) == ""
  {
    match Get(e.item, "result")
    case Object(result) =>
      if Get(result, "content").List? {
        var tool := if FilledText(Get(e.item, "tool")) then Some(Qualified(Get(e.item, "server"), Get(e.item, "tool").text)) else None;
        BlocksTellNoDelta(Get(result, "content").items, tool, CallId(e.item), id);
      }
    case _ =>
  }

  /** An event's report tells a delta of a command exactly as an output of that command does. */
  lemma ReportTellsDelta(outputs: map<string, string>, e: Event, id: string)
    requires id != "" && !Impostor(e, id)
    ensures DeltaTexts(Report(outputs, e), id) == if OutputOf(e, id) then Texts(Report(outputs, e)) else ""
  {
    if !e.Started? && !ReportsOutput(e) && e.Completed? && e.kind == "mcp_tool_call" {
      McpTellsNoDelta(outputs, e, id);
    } else {
      var report := Report(outputs, e);
      assert |report| <= 1;
      assert report != [] ==> report[1..] == [];
    }
  }

  lemma FlushedTellsNoDelta(pending: Option<string>, id: string)
    requires id != ""
    ensures DeltaTexts(Flushed(pending), id) == ""
  {
    assert Flushed(pending) != [] ==> Flushed(pending)[1..] == [];
  }

  lemma AfterTellsDelta(s: State, e: Event, id: string)
    requires id != "" && !Impostor(e, id)
    ensures DeltaTexts(After(s, e).sent, id) == DeltaTexts(s.sent, id) + if OutputOf(e, id) then Texts(Report(s.outputs, e)) else ""
  {
    hide DeltaTexts, Texts, Report, Flushed, Impostor;
    if !e.Ignored? {
      ReportTellsDelta(s.outputs, e, id);
      DeltaTextsAppend(s.sent + Flushed(s.pending), Report(s.outputs, e), id);
      DeltaTextsAppend(s.sent, Flushed(s.pending), id);
      FlushedTellsNoDelta(s.pending, id);
    }
  }

  /** A command's deltas are what can be picked out of everything told, unless a tool passes for the command. */
  lemma {:induction false} DeltasAreTold(events: seq<Event>, id: string)
    requires id != "" && forall i :: 0 <= i < |events| ==> !Impostor(events[i], id)
    ensures DeltaTexts(Run(events).sent, id) == Deltas(events, id)
    decreases |events|
  {
    if events != [] {
      var n := |events| - 1;
      DeltasAreTold(events[..n], id);
      AfterTellsDelta(Run(events[..n]), events[n], id);
    }
  }

  function CommandOutput(output: string): Event {
    Updated("command_execution", map["id" := Text("1"), "aggregated_output" := Text(output)])
  }

  /** A run whose deltas do not add up to its latest output: the second output does not extend the first. */
  lemma ReplacedOutputIsNotRebuilt()
    ensures var events := [CommandOutput("ab"), CommandOutput("c")];
            Outputs(events, "1") == ["ab", "c"] && Deltas(events, "1") != Latest(Outputs(events, "1"))
  {
    var events := [CommandOutput("ab"), CommandOutput("c")];
    assert events[..1][..0] == [] && events[..1][0] == events[0];
    assert Outputs(events[..1], "1") == Outputs([], "1") + ["ab"];
    assert Outputs(events, "1") == ["ab"] + ["c"];
    assert !Growing(["ab", "c"]) by {
      assert !(["ab", "c"][0] <= ["ab", "c"][1]);
    }
    DeltasRebuildOutputIffGrowing(events, "1");
  }
}
