/** What a line of agent output means, and what is reported of it, told from the fields of its record. */
module StreamEvents {
  import opened Options
  import opened StreamJson
  import Codex = CodexStream
  import Claude = ClaudeStream

  /** A member of a record, if the record is an object that has it. */
  function Member(record: Option<Json>, key: string): Option<Json> {
    if record.Some? && record.value.Object? && key in record.value.members then Some(record.value.members[key]) else None
  }

  /** What a line that is not blank decodes to. */
  function RecordOf(decode: Decoder, line: string): Option<Json> {
    if forall i :: 0 <= i < |line| ==> Texts.IsSpace(line[i]) then None else decode(line)
  }

  import Texts

  // ----- Codex -----

  /** An item's event is a record of one of the three types whose item has a type; agent messages are told apart, and
      every other line is ignored. */
  lemma CodexEventIff(decode: Decoder, line: string)
    ensures var record, e := RecordOf(decode, line), Codex.Classify(decode, line);
            var eventType, item := Member(record, "type"), Member(record, "item");
            var kind := Member(item, "type");
            && (forall k, i :: e == Codex.Started(k, i) <==>
                  eventType == Some(Text("item.started")) && item == Some(Object(i)) && kind == Some(Text(k)) && k != "agent_message")
            && (forall k, i :: e == Codex.Updated(k, i) <==>
                  eventType == Some(Text("item.updated")) && item == Some(Object(i)) && kind == Some(Text(k)) && k != "agent_message")
            && (forall k, i :: e == Codex.Completed(k, i) <==>
                  eventType == Some(Text("item.completed")) && item == Some(Object(i)) && kind == Some(Text(k)) && k != "agent_message")
            && (e == Codex.MessageSeen <==>
                  eventType in {Some(Text("item.started")), Some(Text("item.updated"))} && kind == Some(Text("agent_message")))
            && (forall m :: e == Codex.MessageCompleted(m) <==>
                  && eventType == Some(Text("item.completed")) && kind == Some(Text("agent_message"))
                  && match m
                     case Some(text) => Member(item, "text") == Some(Text(text))
                     case None => Member(item, "text").None? || !Member(item, "text").value.Text?)
  {
  }

  /** The item's id, when it is a text. */
  predicate CallIs(item: Codex.Item, call: Option<string>) {
    match call
    case Some(id) => Member(Some(Object(item)), "id") == Some(Text(id))
    case None => Member(Some(Object(item)), "id").None? || !Member(Some(Object(item)), "id").value.Text?
  }

  /** A tool is named with its server, when there is one. */
  predicate NameIs(item: Codex.Item, name: string) {
    var record := Some(Object(item));
    && Member(record, "tool").Some? && Member(record, "tool").value.Text? && Member(record, "tool").value.text != ""
    && var tool := Member(record, "tool").value.text;
       if Member(record, "server").Some? && Member(record, "server").value.Text? && Member(record, "server").value.text != ""
       then name == Member(record, "server").value.text + "." + tool else name == tool
  }

  /** What starts is announced once, by its command, its query or else its name, or its tool, and else not at all. */
  lemma StartReportIff(kind: string, item: Codex.Item, p: Progress)
    ensures |Codex.StartReport(kind, item)| <= 1
    ensures var record := Some(Object(item));
            p in Codex.StartReport(kind, item) <==>
            && p.event == ToolCall && CallIs(item, p.call) && p.tool.Some?
            && if kind == "command_execution" then
                 && p.tool.value == kind
                 && exists command :: command != "" && Member(record, "command") == Some(Text(command)) && p.text == "$ " + command + "\n"
               else if kind == "web_search" then
                 && p.tool.value == kind
                 && exists title :: && title != "" && p.text == "[" + title + "]\n"
                                    && Some(Text(title)) == if Member(record, "query").Some? && Truthy(Member(record, "query").value)
                                                            then Member(record, "query") else Member(record, "name")
               else kind == "mcp_tool_call" && NameIs(item, p.tool.value) && p.text == "[" + p.tool.value + "]\n"
  {
  }

  /** What makes a report the one of a block. */
  type Reports = (Json, Progress) -> bool

  /** The reports are of these blocks, from left to right, and of every one that has a report. */
  ghost predicate Reported(blocks: seq<Json>, reports: seq<Progress>, at: seq<nat>, of: Reports) {
    && |reports| == |at|
    && (forall i :: 0 <= i < |at| ==> at[i] < |blocks| && of(blocks[at[i]], reports[i]))
    && (forall i, j :: 0 <= i < j < |at| ==> at[i] < at[j])
    && (forall k: nat, p :: k < |blocks| && of(blocks[k], p) ==> k in at)
  }

  lemma ReportedNext(blocks: seq<Json>, reports: seq<Progress>, at: seq<nat>, of: Reports, block: Json, p: Progress)
    requires Reported(blocks, reports, at, of) && of(block, p)
    ensures Reported(blocks + [block], reports + [p], at + [|blocks|], of)
  {
    var more, all := at + [|blocks|], blocks + [block];
    assert more[|at|] == |blocks|;
    forall k: nat, q | k < |all| && of(all[k], q)
      ensures k in more
    {
      if k < |blocks| {
        assert of(blocks[k], q) && k in at;
      }
    }
  }

  lemma ReportedSkip(blocks: seq<Json>, reports: seq<Progress>, at: seq<nat>, of: Reports, block: Json)
    requires Reported(blocks, reports, at, of) && forall q :: !of(block, q)
    ensures Reported(blocks + [block], reports, at, of)
  {
    var all := blocks + [block];
    forall k: nat, q | k < |all| && of(all[k], q)
      ensures k in at
    {
      assert of(blocks[k], q);
    }
  }

  lemma NothingReported(of: Reports)
    ensures Reported([], [], [], of)
  {
  }

  lemma Regroup(a: seq<Progress>, b: seq<Progress>, c: seq<Progress>)
    ensures (a + b) + c == a + (b + c)
  {
  }

  /** A report of a block marked as text. */
  function OfTextBlock(tool: Option<string>, call: Option<string>): Reports {
    (block: Json, p: Progress) =>
      && Member(Some(block), "type") == Some(Text("text")) && Member(Some(block), "text") == Some(Text(p.text))
      && p == Progress(p.text, ToolResult, tool, call)
  }

  lemma {:induction false} BlockReportsAppend(blocks: seq<Json>, block: Json, tool: Option<string>, call: Option<string>)
    ensures Codex.BlockReports(blocks + [block], tool, call)
         == Codex.BlockReports(blocks, tool, call)
            + if Codex.TextBlock(block) then [Progress(Get(block.members, "text").text, ToolResult, tool, call)] else []
  {
    if blocks == [] {
      assert blocks + [block] == [block] && [block][1..] == [];
    } else {
      assert (blocks + [block])[1..] == blocks[1..] + [block];
      BlockReportsAppend(blocks[1..], block, tool, call);
      var first := if Codex.TextBlock(blocks[0]) then [Progress(Get(blocks[0].members, "text").text, ToolResult, tool, call)] else [];
      var rest := Codex.BlockReports(blocks[1..], tool, call);
      var last := if Codex.TextBlock(block) then [Progress(Get(block.members, "text").text, ToolResult, tool, call)] else [];
      Regroup(first, rest, last);
    }
  }

  /** Every text block is reported, in order, and nothing else. */
  lemma {:induction false} BlockReportsAre(blocks: seq<Json>, tool: Option<string>, call: Option<string>) returns (at: seq<nat>)
    ensures Reported(blocks, Codex.BlockReports(blocks, tool, call), at, OfTextBlock(tool, call))
  {
    hide Reported;
    at := [];
    if blocks == [] {
      NothingReported(OfTextBlock(tool, call));
    } else {
      var n := |blocks| - 1;
      var block, before := blocks[n], Codex.BlockReports(blocks[..n], tool, call);
      at := BlockReportsAre(blocks[..n], tool, call);
      assert blocks == blocks[..n] + [block];
      BlockReportsAppend(blocks[..n], block, tool, call);
      if Codex.TextBlock(block) {
        ReportedNext(blocks[..n], before, at, OfTextBlock(tool, call), block, Progress(Get(block.members, "text").text, ToolResult, tool, call));
        at := at + [n];
      } else {
        ReportedSkip(blocks[..n], before, at, OfTextBlock(tool, call), block);
        assert before + [] == before;
      }
    }
  }

  /** A completed tool call reports the text blocks of its result's content under the tool's name. */
  lemma McpReportIff(item: Codex.Item) returns (at: seq<nat>, tool: Option<string>, call: Option<string>)
    ensures CallIs(item, call) && (if tool.Some? then NameIs(item, tool.value) else forall name :: !NameIs(item, name))
    ensures match Member(Member(Some(Object(item)), "result"), "content")
            case Some(List(blocks)) => Reported(blocks, Codex.McpReport(item), at, OfTextBlock(tool, call))
            case _ => Codex.McpReport(item) == []
  {
    at := [];
    tool := if FilledText(Get(item, "tool")) then Some(Codex.Qualified(Get(item, "server"), Get(item, "tool").text)) else None;
    call := Codex.CallId(item);
    match Member(Member(Some(Object(item)), "result"), "content") {
      case Some(List(blocks)) => at := BlockReportsAre(blocks, tool, call);
      case _ =>
    }
  }

  // ----- Claude -----

  /** A text that is not empty, or nothing else than none. */
  predicate FilledIs(value: Option<Json>, call: Option<string>) {
    match call
    case Some(id) => id != "" && value == Some(Text(id))
    case None => value.None? || !value.value.Text? || value.value.text == ""
  }

  /** A stop reason that is there and not null. */
  predicate StopsWith(holder: Option<Json>, reason: Json) {
    Member(holder, "stop_reason") == Some(reason) && reason != Null
  }

  /** A line starts a tool, adds text, stops a turn or brings tool results exactly if its record says so. */
  lemma ClaudeEventIff(decode: Decoder, line: string)
    ensures var record, e := RecordOf(decode, line), Claude.Classify(decode, line);
            var kind, event, message := Member(record, "type"), Member(record, "event"), Member(record, "message");
            var step := if kind == Some(Text("stream_event")) then Member(event, "type") else None;
            && (forall name, call :: e == Claude.ToolUse(name, call) <==>
                  var block := Member(event, "content_block");
                  && step == Some(Text("content_block_start")) && Member(block, "type") == Some(Text("tool_use"))
                  && name != "" && Member(block, "name") == Some(Text(name)) && FilledIs(Member(block, "id"), call))
            && (forall text :: e == Claude.TextDelta(text) <==>
                  var delta := Member(event, "delta");
                  && step == Some(Text("content_block_delta")) && Member(delta, "type") == Some(Text("text_delta"))
                  && Member(delta, "text") == Some(Text(text)))
            && (forall reason :: e == Claude.Stop(reason) <==>
                  || (step == Some(Text("message_delta")) && StopsWith(Member(event, "delta"), reason))
                  || (kind == Some(Text("assistant")) && StopsWith(message, reason)))
            && (forall blocks :: e == Claude.ToolResults(blocks) <==>
                  kind == Some(Text("user")) && Member(message, "content") == Some(List(blocks)))
  {
  }

  /** A report of an item's text, marked or not. */
  function OfItem(call: Option<string>): Reports {
    (item: Json, p: Progress) => Member(Some(item), "text") == Some(Text(p.text)) && p == Progress(p.text, ToolResult, None, call)
  }

  lemma {:induction false} TextReportsAppend(items: seq<Json>, item: Json, call: Option<string>)
    ensures Claude.TextReports(items + [item], call)
         == Claude.TextReports(items, call)
            + match Member(Some(item), "text")
              case Some(Text(text)) => [Progress(text, ToolResult, None, call)]
              case _ => []
  {
    if items == [] {
      assert items + [item] == [item] && [item][1..] == [];
    } else {
      assert (items + [item])[1..] == items[1..] + [item];
      TextReportsAppend(items[1..], item, call);
      var first := match Member(Some(items[0]), "text")
                   case Some(Text(text)) => [Progress(text, ToolResult, None, call)]
                   case _ => [];
      var rest := Claude.TextReports(items[1..], call);
      var last := match Member(Some(item), "text")
                  case Some(Text(text)) => [Progress(text, ToolResult, None, call)]
                  case _ => [];
      Regroup(first, rest, last);
    }
  }

  /** Every text of a result's list is reported, in order, and nothing else. */
  lemma {:induction false} TextReportsAre(items: seq<Json>, call: Option<string>) returns (at: seq<nat>)
    ensures Reported(items, Claude.TextReports(items, call), at, OfItem(call))
  {
    hide Reported;
    at := [];
    if items == [] {
      NothingReported(OfItem(call));
    } else {
      var n := |items| - 1;
      var item, before := items[n], Claude.TextReports(items[..n], call);
      at := TextReportsAre(items[..n], call);
      assert items == items[..n] + [item];
      TextReportsAppend(items[..n], item, call);
      match Member(Some(item), "text") {
        case Some(Text(text)) =>
          ReportedNext(items[..n], before, at, OfItem(call), item, Progress(text, ToolResult, None, call));
          at := at + [n];
        case _ =>
          ReportedSkip(items[..n], before, at, OfItem(call), item);
          assert before + [] == before;
      }
    }
  }

  /** A tool result reports its text, or the texts of its list; any other block reports nothing. */
  lemma ResultReportIff(block: Json) returns (at: seq<nat>, call: Option<string>)
    ensures FilledIs(Member(Some(block), "tool_use_id"), call)
    ensures var content := if Member(Some(block), "type") == Some(Text("tool_result")) then Member(Some(block), "content") else None;
            match content
            case Some(Text(text)) => Claude.BlockReports(block) == if text == "" then [] else [Progress(text, ToolResult, None, call)]
            case Some(List(items)) => Reported(items, Claude.BlockReports(block), at, OfItem(call))
            case _ => Claude.BlockReports(block) == []
  {
    call, at := Claude.FilledId(Get(Claude.MembersOf(block), "tool_use_id")), [];
    match Member(Some(block), "content") {
      case Some(List(items)) => at := TextReportsAre(items, call);
      case _ =>
    }
  }

  /** The blocks of a message are reported one after another. */
  lemma {:induction false} ResultReportsAre(blocks: seq<Json>, more: seq<Json>)
    ensures Claude.ResultReports(blocks + more) == Claude.ResultReports(blocks) + Claude.ResultReports(more)
    ensures |blocks| == 1 ==> Claude.ResultReports(blocks) == Claude.BlockReports(blocks[0])
  {
    hide Claude.BlockReports;
    if blocks == [] {
      assert blocks + more == more;
    } else {
      assert (blocks + more)[1..] == blocks[1..] + more;
      ResultReportsAre(blocks[1..], more);
      Regroup(Claude.BlockReports(blocks[0]), Claude.ResultReports(blocks[1..]), Claude.ResultReports(more));
    }
  }

  /** What is wrong with a line of the final output, and which lines are results with which text. */
  lemma FaultIff(decode: Decoder, line: string)
    ensures var blank, record := forall i :: 0 <= i < |line| ==> Texts.IsSpace(line[i]), RecordOf(decode, line);
            var result := Member(record, "type") == Some(Text("result"));
            var textual := Member(record, "result").Some? && Member(record, "result").value.Text?;
            && (Claude.Fault(decode, line) == Some(Claude.Malformed) <==> !blank && record.None?)
            && (Claude.Fault(decode, line) == Some(Claude.NotAnObject) <==> record.Some? && !record.value.Object?)
            && (Claude.Fault(decode, line) == Some(Claude.ResultNotText) <==> result && !textual)
            && Claude.Fault(decode, line) != Some(Claude.NoResult)
            && (Claude.IsResult(decode, line) <==> result)
            && (result && textual ==> Claude.ResultText(decode, line) == Member(record, "result").value.text)
  {
  }
}
