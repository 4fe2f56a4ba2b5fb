/** Decoded records of agent output, and what is reported about them. */
module StreamJson {
  import opened Options
  import opened Texts

  datatype Json = Null | Bool(b: bool) | Number(x: real) | Text(text: string) | List(items: seq<Json>) | Object(members: map<string, Json>)

  /** A member of an object, null when it is absent. */
  function Get(members: map<string, Json>, key: string): Json {
    if key in members then members[key] else Null
  }

  predicate Truthy(value: Json) {
    match value
    case Null => false
    case Bool(b) => b
    case Number(x) => x != 0.0
    case Text(text) => text != ""
    case List(items) => items != []
    case Object(members) => members != map[]
  }

  predicate IsText(value: Json) {
    value.Text?
  }

  predicate FilledText(value: Json) {
    value.Text? && value.text != ""
  }

  predicate Blank(line: string) {
    forall i :: 0 <= i < |line| ==> IsSpace(line[i])
  }

  /** Decoding a line, when it is JSON. */
  type Decoder = string -> Option<Json>

  /** The object a line decodes to. */
  function Record(decode: Decoder, line: string): Option<map<string, Json>> {
    if Blank(line) then None
    else
      var decoded := decode(line);
      if decoded.Some? && decoded.value.Object? then Some(decoded.value.members) else None
  }

  /** What a callback is told: a text, its kind of event, and the tool it belongs to. */
  datatype Progress = Progress(text: string, event: EventType, tool: Option<string>, call: Option<string>)

  datatype EventType = Message | ToolCall | ToolResult
}
