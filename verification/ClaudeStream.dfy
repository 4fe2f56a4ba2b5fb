/** Reading Claude's progress line by line.

    Text is forwarded when its turn goes on to use tools, and held back when the turn ends the response. */
module ClaudeStream {
  import opened Options
  import opened StreamJson
  import opened StreamFraming

  // ----- Events -----

  datatype Event =
    | Ignored
    | ToolUse(name: string, call: Option<string>)
    | TextDelta(text: string)
    | Stop(reason: Json)
    | ToolResults(blocks: seq<Json>)

  function MembersOf(value: Json): map<string, Json> {
    if value.Object? then value.members else map[]
  }

  function FilledId(value: Json): Option<string> {
    if FilledText(value) then Some(value.text) else None
  }

  function StreamEventOf(event: map<string, Json>): Event {
    var kind := Get(event, "type");
    if kind == Text("content_block_start") then
      var block := MembersOf(Get(event, "content_block"));
      if Get(block, "type") == Text("tool_use") && FilledText(Get(block, "name"))
      then ToolUse(Get(block, "name").text, FilledId(Get(block, "id"))) else Ignored
    else if kind == Text("content_block_delta") then
      var delta := MembersOf(Get(event, "delta"));
      if Get(delta, "type") == Text("text_delta") && IsText(Get(delta, "text")) then TextDelta(Get(delta, "text").text) else Ignored
    else if kind == Text("message_delta") then StopOf(Get(event, "delta"))
    else Ignored
  }

  /** A stop reason that is given, whatever it is. */
  function StopOf(holder: Json): Event {
    if Get(MembersOf(holder), "stop_reason").Null? then Ignored else Stop(Get(MembersOf(holder), "stop_reason"))
  }

  function Classify(decode: Decoder, line: string): Event {
    match Record(decode, line)
    case None => Ignored
    case Some(event) =>
      var kind := Get(event, "type");
      if kind == Text("stream_event") then StreamEventOf(MembersOf(Get(event, "event")))
      else if kind == Text("assistant") then StopOf(Get(event, "message"))
      else if kind == Text("user") && Get(MembersOf(Get(event, "message")), "content").List? then
        ToolResults(Get(MembersOf(Get(event, "message")), "content").items)
      else Ignored
  }

  /** Only these reasons end the whole response. */
  predicate EndsResponse(reason: Json) {
    reason in {Text("end_turn"), Text("stop_sequence")}
  }

  // ----- Reports -----

  function TextReports(items: seq<Json>, call: Option<string>): seq<Progress> {
    if items == [] then []
    else
      var text := Get(MembersOf(items[0]), "text");
      (if IsText(text) then [Progress(text.text, ToolResult, None, call)] else []) + TextReports(items[1..], call)
  }

  function BlockReports(block: Json): seq<Progress> {
    var members := MembersOf(block);
    var result, call := Get(members, "content"), FilledId(Get(members, "tool_use_id"));
    if Get(members, "type") != Text("tool_result") then []
    else if FilledText(result) then [Progress(result.text, ToolResult, None, call)]
    else if result.List? then TextReports(result.items, call)
    else []
  }

  function ResultReports(blocks: seq<Json>): seq<Progress> {
    if blocks == [] then [] else BlockReports(blocks[0]) + ResultReports(blocks[1..])
  }

  lemma ResultReportsFrom(sent: seq<Progress>, blocks: seq<Json>, k: nat)
    requires k < |blocks|
    ensures sent + ResultReports(blocks[k..]) == (sent + BlockReports(blocks[k])) + ResultReports(blocks[k + 1..])
  {
    assert blocks[k..][1..] == blocks[k + 1..];
  }

  // ----- The stream's state -----

  datatype State = State(assistantText: seq<string>, sent: seq<Progress>)

  const START := State([], [])

  function Classified(s: State, reason: Json): State {
    var text := Concat(s.assistantText);
    State([], s.sent + if !EndsResponse(reason) && text != "" then [Progress(text, Message, None, None)] else [])
  }

  function After(s: State, e: Event): State {
    match e
    case Ignored => s
    case ToolUse(name, call) => s.(sent := s.sent + [Progress("[" + name + "]\n", ToolCall, Some(name), call)])
    case TextDelta(text) => s.(assistantText := s.assistantText + [text])
    case Stop(reason) => Classified(s, reason)
    case ToolResults(blocks) => s.(sent := s.sent + ResultReports(blocks))
  }

  function LineStep(decode: Decoder): (State, string) -> State {
    (s: State, line: string) => After(s, Classify(decode, line))
  }

  class ClaudeOutputStream {
    const decode: Decoder
    var buffer: string
    var assistantText: seq<string>
    /** Everything the callback has been told. */
    var sent: seq<Progress>

    function Now(): State
      reads this
    {
      State(assistantText, sent)
    }

    constructor (decode: Decoder)
      ensures this.decode == decode && buffer == "" && Now() == START
    {
      this.decode := decode;
      buffer, assistantText, sent := "", [], [];
    }

    /** Consume one process chunk. */
    method Feed(chunk: string)
      modifies this
      ensures (Now(), buffer) == Fed(LineStep(decode), (old(Now()), old(buffer)), chunk)
    {
      ghost var result := Fed(LineStep(decode), (Now(), buffer), chunk);
      buffer := buffer + chunk;
      while FirstNewline(buffer) < |buffer|
        invariant Yields(LineStep(decode), Now(), buffer, result)
        decreases |buffer|
      {
        var k := FirstNewline(buffer);
        YieldsLine(LineStep(decode), Now(), buffer, result);
        var line := buffer[..k];
        buffer := buffer[k + 1..];
        ConsumeLine(line);
      }
    }

    /** Consume a final unterminated record, if present. */
    method Finish()
      modifies this
      ensures Now() == Finished(LineStep(decode), (old(Now()), old(buffer))) && buffer == ""
    {
      if buffer != "" {
        ConsumeLine(buffer);
        buffer := "";
      }
    }

    method ConsumeLine(line: string)
      modifies this
      ensures Now() == LineStep(decode)(old(Now()), line) && buffer == old(buffer)
    {
      if Blank(line) {
        return;
      }
      var decoded := decode(line);
      if !(decoded.Some? && decoded.value.Object?) {
        return;
      }
      var event := decoded.value.members;
      assert Record(decode, line) == Some(event);
      var eventType := Get(event, "type");
      if eventType == Text("stream_event") {
        assert Classify(decode, line) == StreamEventOf(MembersOf(Get(event, "event")));
        StreamEvent(event);
      } else if eventType == Text("assistant") {
        AssistantMessage(event);
      } else if eventType == Text("user") {
        ReportToolResults(event);
      }
    }

    method StreamEvent(event: map<string, Json>)
      modifies this`assistantText, this`sent
      ensures Now() == After(old(Now()), StreamEventOf(MembersOf(Get(event, "event"))))
    {
      var rawEvent := Get(event, "event");
      if !rawEvent.Object? {
        return;
      }
      var streamEvent := rawEvent.members;
      var kind := Get(streamEvent, "type");
      if kind == Text("content_block_start") {
        var block := Get(streamEvent, "content_block");
        if block.Object? && Get(block.members, "type") == Text("tool_use") {
          var name := Get(block.members, "name");
          if FilledText(name) {
            sent := sent + [Progress("[" + name.text + "]\n", ToolCall, Some(name.text), FilledId(Get(block.members, "id")))];
          }
        }
      } else if kind == Text("content_block_delta") {
        var delta := Get(streamEvent, "delta");
        if delta.Object? && Get(delta.members, "type") == Text("text_delta") {
          var text := Get(delta.members, "text");
          if text.Text? {
            assistantText := assistantText + [text.text];
          }
        }
      } else if kind == Text("message_delta") {
        var delta := Get(streamEvent, "delta");
        if delta.Object? {
          var stopReason := Get(delta.members, "stop_reason");
          if !stopReason.Null? {
            ClassifyAssistantText(stopReason);
          }
        }
      }
    }

    method AssistantMessage(event: map<string, Json>)
      modifies this`assistantText, this`sent
      ensures Now() == After(old(Now()), StopOf(Get(event, "message")))
    {
      var message := Get(event, "message");
      if !message.Object? {
        return;
      }
      var stopReason := Get(message.members, "stop_reason");
      if stopReason.Null? {
        return;
      }
      ClassifyAssistantText(stopReason);
    }

    method ClassifyAssistantText(stopReason: Json)
      modifies this`assistantText, this`sent
      ensures Now() == Classified(old(Now()), stopReason)
    {
      if !EndsResponse(stopReason) {
        var text := Concat(assistantText);
        if text != "" {
          sent := sent + [Progress(text, Message, None, None)];
        }
      }
      assistantText := [];
    }

    method ReportToolResults(event: map<string, Json>)
      modifies this`sent
      ensures var content := Get(MembersOf(Get(event, "message")), "content");
              sent == old(sent) + if content.List? then ResultReports(content.items) else []
    {
      var message := Get(event, "message");
      if !message.Object? {
        return;
      }
      var content := Get(message.members, "content");
      if content.List? {
        ReportBlocks(content.items);
      }
    }

    method ReportBlocks(blocks: seq<Json>)
      modifies this`sent
      ensures sent == old(sent) + ResultReports(blocks)
    {
      assert blocks[0..] == blocks;
      for k := 0 to |blocks|
        invariant sent + ResultReports(blocks[k..]) == old(sent) + ResultReports(blocks)
      {
        ResultReportsFrom(sent, blocks, k);
        ReportBlock(blocks[k]);
      }
      assert blocks[|blocks|..] == [];
    }

    method ReportBlock(block: Json)
      modifies this`sent
      ensures sent == old(sent) + BlockReports(block)
    {
      if !block.Object? || Get(block.members, "type") != Text("tool_result") {
        return;
      }
      var result := Get(block.members, "content");
      var call := FilledId(Get(block.members, "tool_use_id"));
      if FilledText(result) {
        sent := sent + [Progress(result.text, ToolResult, None, call)];
      } else if result.List? {
        var items := result.items;
        for k := 0 to |items|
          invariant sent + TextReports(items[k..], call) == old(sent) + TextReports(items, call)
        {
          assert items[k..][1..] == items[k + 1..];
          var text := Get(MembersOf(items[k]), "text");
          if items[k].Object? && text.Text? {
            sent := sent + [Progress(text.text, ToolResult, None, call)];
          }
        }
        assert items[|items|..] == [];
      }
    }
  }

  // ----- Whole runs -----

  /** However a text is cut into chunks, the stream ends up where consuming the text's lines leads. */
  lemma ChunksRunTheLines(decode: Decoder, chunks: seq<string>)
    ensures Finished(LineStep(decode), FedAll(LineStep(decode), (START, ""), chunks))
         == Consume(LineStep(decode), START, Lines(Concat(chunks)))
  {
    assert Blank("") && Classify(decode, "") == Ignored;
    ChunksDoNotMatter(LineStep(decode), START, chunks);
  }

  function Run(events: seq<Event>): State {
    if events == [] then START else After(Run(events[..|events| - 1]), events[|events| - 1])
  }

  predicate IsStop(e: Event) {
    e.Stop?
  }

  /** The text of the deltas from one event up to another. */
  function TextBetween(events: seq<Event>, from: nat, to: nat): string
    requires from <= to <= |events|
  {
    if from == to then ""
    else TextBetween(events, from, to - 1) + if events[to - 1].TextDelta? then events[to - 1].text else ""
  }

  /** Where the turn that is under way after n events began: after the last stop. */
  function TurnStart(events: seq<Event>, n: nat): (start: nat)
    requires n <= |events|
    ensures start <= n && (start > 0 ==> IsStop(events[start - 1])) && forall i :: start <= i < n ==> !IsStop(events[i])
  {
    if n == 0 || IsStop(events[n - 1]) then n else TurnStart(events, n - 1)
  }

  /** The texts of the turns that did not end the response, in order, empty ones left out. */
  function InterimTexts(events: seq<Event>, n: nat): seq<string>
    requires n <= |events|
  {
    if n == 0 then []
    else
      InterimTexts(events, n - 1)
      + if IsStop(events[n - 1]) && events[n - 1].reason != Text("end_turn") && events[n - 1].reason != Text("stop_sequence")
           && TextBetween(events, TurnStart(events, n - 1), n - 1) != ""
        then [TextBetween(events, TurnStart(events, n - 1), n - 1)] else []
  }

  function MessagesTold(sent: seq<Progress>): seq<string> {
    if sent == [] then []
    else
      var n := |sent| - 1;
      MessagesTold(sent[..n]) + if sent[n].event == Message then [sent[n].text] else []
  }

  lemma MessagesToldOne(sent: seq<Progress>, p: Progress)
    ensures MessagesTold(sent + [p]) == MessagesTold(sent) + if p.event == Message then [p.text] else []
  {
    assert (sent + [p])[..|sent|] == sent;
  }

  lemma {:induction false} NoMessageTold(sent: seq<Progress>, more: seq<Progress>)
    requires forall i :: 0 <= i < |more| ==> more[i].event != Message
    ensures MessagesTold(sent + more) == MessagesTold(sent)
    decreases |more|
  {
    if more == [] {
      assert sent + more == sent;
    } else {
      var n := |more| - 1;
      assert sent + more == (sent + more[..n]) + [more[n]];
      NoMessageTold(sent, more[..n]);
      MessagesToldOne(sent + more[..n], more[n]);
    }
  }

  lemma {:induction false} TextReportsAreResults(items: seq<Json>, call: Option<string>)
    ensures forall i :: 0 <= i < |TextReports(items, call)| ==> TextReports(items, call)[i].event == ToolResult
  {
    if items != [] {
      TextReportsAreResults(items[1..], call);
    }
  }

  lemma {:induction false} ReportsAreResults(blocks: seq<Json>)
    ensures forall i :: 0 <= i < |ResultReports(blocks)| ==> ResultReports(blocks)[i].event == ToolResult
  {
    if blocks != [] {
      ReportsAreResults(blocks[1..]);
      var result := Get(MembersOf(blocks[0]), "content");
      if result.List? {
        TextReportsAreResults(result.items, FilledId(Get(MembersOf(blocks[0]), "tool_use_id")));
      }
    }
  }

  lemma {:induction false} ConcatOne(texts: seq<string>, text: string)
    ensures Concat(texts + [text]) == Concat(texts) + text
  {
    if texts == [] {
      assert texts + [text] == [text] && [text][1..] == [];
    } else {
      assert (texts + [text])[1..] == texts[1..] + [text];
      ConcatOne(texts[1..], text);
    }
  }

  lemma {:induction false} PrefixAgrees(events: seq<Event>, m: nat, from: nat, n: nat)
    requires from <= n <= m <= |events|
    ensures TextBetween(events[..m], from, n) == TextBetween(events, from, n)
    ensures TurnStart(events[..m], n) == TurnStart(events, n)
    decreases n
  {
    if from < n {
      PrefixAgrees(events, m, from, n - 1);
    } else if n > 0 {
      PrefixAgrees(events, m, n - 1, n - 1);
    }
  }

  lemma {:induction false} PrefixInterim(events: seq<Event>, m: nat, n: nat)
    requires n <= m <= |events|
    ensures InterimTexts(events[..m], n) == InterimTexts(events, n)
  {
    if n > 0 {
      PrefixInterim(events, m, n - 1);
      PrefixAgrees(events, m, TurnStart(events, n - 1), n - 1);
      PrefixAgrees(events, m, n - 1, n - 1);
    }
  }

  /** What a prefix of the events says about itself is what the whole run says about it. */
  lemma PrefixSays(events: seq<Event>, n: nat)
    requires n <= |events|
    ensures InterimTexts(events[..n], n) == InterimTexts(events, n)
    ensures TextBetween(events[..n], TurnStart(events[..n], n), n) == TextBetween(events, TurnStart(events, n), n)
  {
    PrefixInterim(events, n, n);
    PrefixAgrees(events, n, TurnStart(events, n), n);
  }

  lemma StopForwards(s: State, reason: Json)
    ensures MessagesTold(Classified(s, reason).sent)
         == MessagesTold(s.sent) + if !EndsResponse(reason) && Concat(s.assistantText) != "" then [Concat(s.assistantText)] else []
  {
    MessagesToldOne(s.sent, Progress(Concat(s.assistantText), Message, None, None));
    assert s.sent + [] == s.sent;
  }

  /** What a step adds to the messages told and to the text kept. */
  lemma StepForwards(s: State, e: Event)
    ensures MessagesTold(After(s, e).sent)
         == MessagesTold(s.sent) + if IsStop(e) && !EndsResponse(e.reason) && Concat(s.assistantText) != "" then [Concat(s.assistantText)] else []
    ensures Concat(After(s, e).assistantText)
         == if IsStop(e) then "" else Concat(s.assistantText) + if e.TextDelta? then e.text else ""
  {
    match e
    case Ignored =>
    case ToolUse(name, call) => MessagesToldOne(s.sent, Progress("[" + name + "]\n", ToolCall, Some(name), call));
    case TextDelta(text) => ConcatOne(s.assistantText, text);
    case Stop(reason) => StopForwards(s, reason);
    case ToolResults(blocks) =>
      ReportsAreResults(blocks);
      NoMessageTold(s.sent, ResultReports(blocks));
  }

  /** The messages forwarded are the texts of exactly the turns that stopped without ending the response, each
      whole, once and in order; the text of the turn under way is kept. */
  lemma {:induction false} InterimTextsForwarded(events: seq<Event>)
    ensures MessagesTold(Run(events).sent) == InterimTexts(events, |events|)
    ensures Concat(Run(events).assistantText) == TextBetween(events, TurnStart(events, |events|), |events|)
    decreases |events|
  {
    if events != [] {
      var n := |events| - 1;
      InterimTextsForwarded(events[..n]);
      PrefixSays(events, n);
      StepForwards(Run(events[..n]), events[n]);
    }
  }

  // ----- The final response -----

  datatype DecodeError = Malformed | NotAnObject | ResultNotText | NoResult

  datatype Decoded = Response(text: string) | Failed(error: DecodeError)

  /** What is wrong with a line, if anything. */
  function Fault(decode: Decoder, line: string): Option<DecodeError> {
    if Blank(line) then None
    else if decode(line).None? then Some(Malformed)
    else if !decode(line).value.Object? then Some(NotAnObject)
    else if IsResult(decode, line) && !IsText(Get(decode(line).value.members, "result")) then Some(ResultNotText)
    else None
  }

  predicate IsResult(decode: Decoder, line: string) {
    !Blank(line) && decode(line).Some? && decode(line).value.Object? && Get(decode(line).value.members, "type") == Text("result")
  }

  /** The final response is the last result's text; the first faulty line fails the whole output. */
  method DecodeClaudeStreamJson(decode: Decoder, output: string) returns (r: Decoded)
    ensures r.Response? ==>
              && (forall i :: 0 <= i < |Lines(output)| ==> Fault(decode, Lines(output)[i]).None?)
              && exists i: nat :: i < |Lines(output)| && LastResult(decode, Lines(output), |Lines(output)|, i) && ResultText(decode, Lines(output)[i]) == r.text
    ensures r.Failed? && r.error != NoResult ==>
              exists i :: 0 <= i < |Lines(output)| && Fault(decode, Lines(output)[i]) == Some(r.error)
                          && forall j :: 0 <= j < i ==> Fault(decode, Lines(output)[j]).None?
    ensures r.Failed? && r.error == NoResult ==>
              forall i :: 0 <= i < |Lines(output)| ==> Fault(decode, Lines(output)[i]).None? && !IsResult(decode, Lines(output)[i])
  {
    var final: Option<string> := None;
    var lines := Lines(output);
    ghost var last := 0;
    for k := 0 to |lines|
      invariant forall i :: 0 <= i < k ==> Fault(decode, lines[i]).None?
      invariant final.None? ==> forall i :: 0 <= i < k ==> !IsResult(decode, lines[i])
      invariant final.Some? ==> LastResult(decode, lines, k, last) && ResultText(decode, lines[last]) == final.value
    {
      var line := lines[k];
      if Blank(line) {
        continue;
      }
      var decoded := decode(line);
      if decoded.None? {
        return Failed(Malformed);
      }
      if !decoded.value.Object? {
        return Failed(NotAnObject);
      }
      var event := decoded.value.members;
      if Get(event, "type") == Text("result") {
        var result := Get(event, "result");
        if !result.Text? {
          return Failed(ResultNotText);
        }
        final := Some(result.text);
        last := k;
      }
    }
    r := if final.None? then Failed(NoResult) else Response(final.value);
  }

  function ResultText(decode: Decoder, line: string): string {
    if IsResult(decode, line) && IsText(Get(decode(line).value.members, "result")) then Get(decode(line).value.members, "result").text else ""
  }

  ghost predicate LastResult(decode: Decoder, lines: seq<string>, n: nat, i: nat)
    requires n <= |lines|
  {
    i < n && IsResult(decode, lines[i]) && forall j :: i < j < n ==> !IsResult(decode, lines[j])
  }
}
