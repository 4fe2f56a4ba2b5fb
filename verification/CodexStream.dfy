/** Reading Codex activity line by line.

    Items are reported as they start, grow and complete, and an agent message only once something follows it. */
module CodexStream {
  import opened Options
  import opened StreamJson
  import opened StreamFraming

  // ----- Events -----

  type Item = map<string, Json>

  /** What a line means to the stream. */
  datatype Event =
    | Ignored
    | MessageCompleted(message: Option<string>)
    | MessageSeen
    | Started(kind: string, item: Item)
    | Updated(kind: string, item: Item)
    | Completed(kind: string, item: Item)

  function EventOf(eventType: string, kind: string, item: Item): Event {
    if eventType == "item.completed" && kind == "agent_message" then
      MessageCompleted(if IsText(Get(item, "text")) then Some(Get(item, "text").text) else None)
    else if eventType !in {"item.started", "item.updated", "item.completed"} then Ignored
    else if kind == "agent_message" then MessageSeen
    else if eventType == "item.started" then Started(kind, item)
    else if eventType == "item.updated" then Updated(kind, item)
    else Completed(kind, item)
  }

  function Classify(decode: Decoder, line: string): Event {
    match Record(decode, line)
    case None => Ignored
    case Some(event) =>
      var eventType, item := Get(event, "type"), Get(event, "item");
      if !IsText(eventType) || !item.Object? || !IsText(Get(item.members, "type")) then Ignored
      else EventOf(eventType.text, Get(item.members, "type").text, item.members)
  }

  // ----- What an item's event reports -----

  function CallId(item: Item): Option<string> {
    if IsText(Get(item, "id")) then Some(Get(item, "id").text) else None
  }

  function Qualified(server: Json, tool: string): string {
    if FilledText(server) then server.text + "." + tool else tool
  }

  function SearchTitle(item: Item): Json {
    if Truthy(Get(item, "query")) then Get(item, "query") else Get(item, "name")
  }

  function StartReport(kind: string, item: Item): seq<Progress> {
    if kind == "command_execution" && FilledText(Get(item, "command")) then
      [Progress("$ " + Get(item, "command").text + "\n", ToolCall, Some(kind), CallId(item))]
    else if kind == "web_search" && FilledText(SearchTitle(item)) then
      [Progress("[" + SearchTitle(item).text + "]\n", ToolCall, Some(kind), CallId(item))]
    else if kind == "mcp_tool_call" && FilledText(Get(item, "tool")) then
      var title := Qualified(Get(item, "server"), Get(item, "tool").text);
      [Progress("[" + title + "]\n", ToolCall, Some(title), CallId(item))]
    else []
  }

  predicate TextBlock(block: Json) {
    block.Object? && Get(block.members, "type") == Text("text") && IsText(Get(block.members, "text"))
  }

  function BlockReports(blocks: seq<Json>, tool: Option<string>, call: Option<string>): seq<Progress> {
    if blocks == [] then []
    else (if TextBlock(blocks[0]) then [Progress(Get(blocks[0].members, "text").text, ToolResult, tool, call)] else [])
         + BlockReports(blocks[1..], tool, call)
  }

  function McpReport(item: Item): seq<Progress> {
    match Get(item, "result")
    case Object(result) =>
      var tool := if FilledText(Get(item, "tool")) then Some(Qualified(Get(item, "server"), Get(item, "tool").text)) else None;
      (match Get(result, "content")
       case List(blocks) => BlockReports(blocks, tool, CallId(item))
       case _ => [])
    case _ => []
  }

  lemma ReportsNext(sent: seq<Progress>, blocks: seq<Json>, k: nat, tool: Option<string>, call: Option<string>)
    requires k < |blocks|
    ensures sent + BlockReports(blocks[k..], tool, call)
         == (if TextBlock(blocks[k]) then sent + [Progress(Get(blocks[k].members, "text").text, ToolResult, tool, call)] else sent)
            + BlockReports(blocks[k + 1..], tool, call)
  {
    assert blocks[k..][1..] == blocks[k + 1..];
  }

  lemma NothingLeft(sent: seq<Progress>, blocks: seq<Json>, tool: Option<string>, call: Option<string>)
    ensures sent + BlockReports(blocks[|blocks|..], tool, call) == sent
  {
    assert blocks[|blocks|..] == [];
  }

  predicate ReportsOutput(e: Event) {
    (e.Updated? || e.Completed?) && e.kind == "command_execution" && FilledText(Get(e.item, "aggregated_output"))
  }

  /** What is new of a command's output. */
  function Added(previous: string, output: string): string {
    if previous <= output then output[|previous|..] else output
  }

  predicate Identified(item: Item) {
    FilledText(Get(item, "id"))
  }

  function Previous(outputs: map<string, string>, id: string): string {
    if id in outputs then outputs[id] else ""
  }

  function OutputReport(outputs: map<string, string>, item: Item): seq<Progress>
    requires FilledText(Get(item, "aggregated_output"))
  {
    var output := Get(item, "aggregated_output").text;
    var added := if Identified(item) then Added(Previous(outputs, Get(item, "id").text), output) else output;
    if added == "" then [] else [Progress(added, ToolResult, Some("command_execution"), CallId(item))]
  }

  function OutputsAfter(outputs: map<string, string>, e: Event): map<string, string> {
    if ReportsOutput(e) && Identified(e.item)
    then outputs[Get(e.item, "id").text := Get(e.item, "aggregated_output").text] else outputs
  }

  function Report(outputs: map<string, string>, e: Event): seq<Progress> {
    if e.Started? then StartReport(e.kind, e.item)
    else if ReportsOutput(e) then OutputReport(outputs, e.item)
    else if e.Completed? && e.kind == "mcp_tool_call" then McpReport(e.item)
    else []
  }

  // ----- The stream's state -----

  datatype State = State(outputs: map<string, string>, pending: Option<string>, sent: seq<Progress>)

  function Flushed(pending: Option<string>): seq<Progress> {
    if pending.Some? && pending.value != "" then [Progress(pending.value, Message, None, None)] else []
  }

  function After(s: State, e: Event): State {
    if e.Ignored? then s
    else State(OutputsAfter(s.outputs, e), if e.MessageCompleted? then e.message else None,
               s.sent + Flushed(s.pending) + Report(s.outputs, e))
  }

  function LineStep(decode: Decoder): (State, string) -> State {
    (s: State, line: string) => After(s, Classify(decode, line))
  }

  class CodexOutputStream {
    const decode: Decoder
    var buffer: string
    var commandOutputs: map<string, string>
    var pendingAgentMessage: Option<string>
    /** Everything the callback has been told. */
    var sent: seq<Progress>

    function Now(): State
      reads this
    {
      State(commandOutputs, pendingAgentMessage, sent)
    }

    constructor (decode: Decoder)
      ensures this.decode == decode && buffer == "" && Now() == State(map[], None, [])
    {
      this.decode := decode;
      buffer, commandOutputs, pendingAgentMessage, sent := "", map[], None, [];
    }

    /** Consume complete records from one process chunk. */
    method Feed(chunk: string)
      modifies this
      ensures (Now(), buffer) == Fed(LineStep(decode), (old(Now()), old(buffer)), chunk)
    {
      ghost var result := Fed(LineStep(decode), (Now(), buffer), chunk);
      buffer := buffer + chunk;
      while FirstNewline(buffer) < |buffer|
        invariant Yields(LineStep(decode), Now(), buffer, result)
        decreases |buffer|
      {
        var k := FirstNewline(buffer);
        YieldsLine(LineStep(decode), Now(), buffer, result);
        var line := buffer[..k];
        buffer := buffer[k + 1..];
        ConsumeLine(line);
      }
    }

    /** Consume a final unterminated record, if present. */
    method Finish()
      modifies this
      ensures Now() == Finished(LineStep(decode), (old(Now()), old(buffer))) && buffer == ""
    {
      if buffer != "" {
        ConsumeLine(buffer);
        buffer := "";
      }
    }

    method ConsumeLine(line: string)
      modifies this
      ensures Now() == LineStep(decode)(old(Now()), line) && buffer == old(buffer)
    {
      hide McpReport, OutputReport, StartReport, FilledText, CallId;
      if Blank(line) {
        return;
      }
      var decoded := decode(line);
      if !(decoded.Some? && decoded.value.Object?) {
        return;
      }
      var event := decoded.value.members;
      assert Record(decode, line) == Some(event);
      var eventType := Get(event, "type");
      var found := Get(event, "item");
      if !eventType.Text? || !found.Object? {
        assert Classify(decode, line) == Ignored;
        return;
      }
      var item := found.members;
      var itemType := Get(item, "type");
      if !itemType.Text? {
        return;
      }
      if eventType.text == "item.completed" && itemType.text == "agent_message" {
        EmitPendingAgentMessage();
        var text := Get(item, "text");
        pendingAgentMessage := if text.Text? then Some(text.text) else None;
        return;
      }
      if eventType.text in {"item.started", "item.updated", "item.completed"} {
        EmitPendingAgentMessage();
      }
      if itemType.text == "agent_message" {
        return;
      }
      if eventType.text == "item.started" {
        ItemStarted(itemType.text, item);
      } else if eventType.text == "item.updated" {
        if itemType.text == "command_execution" {
          EmitCommandOutput(item);
        }
      } else if eventType.text == "item.completed" {
        if itemType.text == "command_execution" {
          EmitCommandOutput(item);
        } else if itemType.text == "mcp_tool_call" {
          EmitMcpResult(item);
        }
      }
    }

    method EmitPendingAgentMessage()
      modifies this
      ensures Now() == State(old(commandOutputs), None, old(sent) + Flushed(old(pendingAgentMessage))) && buffer == old(buffer)
    {
      var text := pendingAgentMessage;
      pendingAgentMessage := None;
      if text.Some? && text.value != "" {
        sent := sent + [Progress(text.value, Message, None, None)];
      }
    }

    method ItemStarted(kind: string, item: Item)
      modifies this`sent
      ensures sent == old(sent) + StartReport(kind, item)
    {
      var callId := CallId(item);
      if kind == "command_execution" {
        var command := Get(item, "command");
        if FilledText(command) {
          sent := sent + [Progress("$ " + command.text + "\n", ToolCall, Some(kind), callId)];
        }
      } else if kind == "web_search" {
        var title := SearchTitle(item);
        if FilledText(title) {
          sent := sent + [Progress("[" + title.text + "]\n", ToolCall, Some(kind), callId)];
        }
      } else if kind == "mcp_tool_call" {
        var tool := Get(item, "tool");
        if FilledText(tool) {
          var title := Qualified(Get(item, "server"), tool.text);
          sent := sent + [Progress("[" + title + "]\n", ToolCall, Some(title), callId)];
        }
      }
    }

    method EmitCommandOutput(item: Item)
      modifies this`sent, this`commandOutputs
      ensures forall e: Event :: (e.Updated? || e.Completed?) && e.kind == "command_execution" && e.item == item ==>
                                   sent == old(sent) + Report(old(commandOutputs), e) && commandOutputs == OutputsAfter(old(commandOutputs), e)
    {
      var output := Get(item, "aggregated_output");
      if !FilledText(output) {
        return;
      }
      var id := Get(item, "id");
      var added := output.text;
      if FilledText(id) {
        var previous := if id.text in commandOutputs then commandOutputs[id.text] else "";
        if previous <= output.text {
          added := output.text[|previous|..];
        }
        commandOutputs := commandOutputs[id.text := output.text];
      }
      if added != "" {
        sent := sent + [Progress(added, ToolResult, Some("command_execution"), CallId(item))];
      }
    }

    method EmitMcpResult(item: Item)
      modifies this`sent
      ensures sent == old(sent) + McpReport(item)
    {
      var result := Get(item, "result");
      if !result.Object? {
        return;
      }
      var tool := Get(item, "tool");
      var name := if FilledText(tool) then Some(Qualified(Get(item, "server"), tool.text)) else None;
      var content := Get(result.members, "content");
      if !content.List? {
        return;
      }
      var blocks := content.items;
      assert McpReport(item) == BlockReports(blocks, name, CallId(item));
      assert blocks[0..] == blocks;
      hide McpReport, BlockReports, Qualified;
      for k := 0 to |blocks|
        invariant sent + BlockReports(blocks[k..], name, CallId(item)) == old(sent) + McpReport(item)
      {
        ReportsNext(sent, blocks, k, name, CallId(item));
        if TextBlock(blocks[k]) {
          sent := sent + [Progress(Get(blocks[k].members, "text").text, ToolResult, name, CallId(item))];
        }
      }
      NothingLeft(sent, blocks, name, CallId(item));
    }
  }
}
