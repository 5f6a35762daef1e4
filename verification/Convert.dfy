/** The two request converters of dontlie/protocols.py: OpenAI chat and Anthropic messages. */
module Convert {
  import opened Prelude
  import opened Json

  // ---- Validators ----

  predicate HasModel(body: Fields) {
    Get(body, "model").Str? && Get(body, "model").s != ""
  }

  predicate OpenAiValid(body: Fields) {
    HasModel(body) && (Get(body, "messages").Null? || Get(body, "messages").Arr?)
  }

  predicate AnthropicMessage(m: Json) {
    && m.Obj?
    && (Get(m.fields, "role") == Str("user") || Get(m.fields, "role") == Str("assistant"))
    && (Get(m.fields, "content").Str? || Get(m.fields, "content").Arr?)
  }

  /** The validator returns the request. It raises TypeError for a role that is a list or an object. */
  predicate AnthropicValid(body: Fields) {
    && HasModel(body)
    && Get(body, "messages").Arr?
    && Get(body, "max_tokens").Int? && Get(body, "max_tokens").n > 0
    && (forall i :: 0 <= i < |Get(body, "messages").items| ==> AnthropicMessage(Get(body, "messages").items[i]))
    && (Get(body, "system").Null? || Get(body, "system").Str? || Get(body, "system").Arr?)
  }

  // ---- Messages ----

  /** bool(value). */
  predicate Truthy(j: Json) {
    match j
    case Null => false
    case Bool(b) => b
    case Int(n) => n != 0
    case Float(f) => f.num != 0
    case Str(s) => s != ""
    case Arr(items) => items != []
    case Obj(fields) => fields != map[]
  }

  function Message(role: Json, content: Json): Json {
    Obj(map["role" := role, "content" := content])
  }

  datatype Kind = System(text: string) | Turn(message: Json) | Refused

  /** One OpenAI message: a system text, a turn, or an exception (TypeError for a role that cannot be hashed). */
  function KindOf(m: Json): Kind {
    if !m.Obj? then Refused
    else
      var role, content := Get(m.fields, "role"), Get(m.fields, "content");
      if Truthy(Get(m.fields, "tool_calls")) || role == Str("tool") || !content.Str? then Refused
      else if role == Str("system") then System(content.s)
      else if role == Str("user") || role == Str("assistant") then Turn(Message(role, content))
      else Refused
  }

  predicate NoneRefused(messages: seq<Json>) {
    forall i :: 0 <= i < |messages| ==> !KindOf(messages[i]).Refused?
  }

  function Turns(messages: seq<Json>): seq<Json> {
    if messages == [] then []
    else
      var k := KindOf(messages[|messages| - 1]);
      Turns(messages[..|messages| - 1]) + if k.Turn? then [k.message] else []
  }

  function Systems(messages: seq<Json>): seq<string> {
    if messages == [] then []
    else
      var k := KindOf(messages[|messages| - 1]);
      Systems(messages[..|messages| - 1]) + if k.System? then [k.text] else []
  }

  method SplitMessages(messages: seq<Json>) returns (ok: bool, turns: seq<Json>, systems: seq<string>)
    ensures ok <==> NoneRefused(messages)
    ensures ok ==> turns == Turns(messages) && systems == Systems(messages)
  {
    hide KindOf;
    turns, systems := [], [];
    var i := 0;
    while i < |messages|
      invariant 0 <= i <= |messages|
      invariant forall j :: 0 <= j < i ==> !KindOf(messages[j]).Refused?
      invariant turns == Turns(messages[..i]) && systems == Systems(messages[..i])
    {
      assert messages[..i + 1][..i] == messages[..i];
      match KindOf(messages[i]) {
        case System(text) => systems := systems + [text];
        case Turn(message) => turns := turns + [message];
        case Refused => return false, turns, systems;
      }
      i := i + 1;
    }
    assert messages[..i] == messages;
    ok := true;
  }

  /** "\n\n".join. */
  function JoinSystem(parts: seq<string>): string {
    if parts == [] then "" else if |parts| == 1 then parts[0] else parts[0] + "\n\n" + JoinSystem(parts[1..])
  }

  predicate IsTextBlock(b: Json) {
    b.Obj? && Get(b.fields, "type") == Str("text") && Get(b.fields, "text").Str?
  }

  function BlockTexts(blocks: seq<Json>): Option<string> {
    if blocks == [] then Some("")
    else
      var rest := BlockTexts(blocks[1..]);
      if rest.None? || !IsTextBlock(blocks[0]) then None
      else Some(Get(blocks[0].fields, "text").s + rest.value)
  }

  /** The content of an Anthropic message as one text. */
  function FlatText(content: Json): Option<string> {
    match content
    case Str(s) => Some(s)
    case Arr(blocks) => BlockTexts(blocks)
    case _ => None
  }

  function ToOpenAiMessage(m: Json): Option<Json> {
    if !m.Obj? then None
    else
      var text := FlatText(Get(m.fields, "content"));
      if text.None? then None else Some(Message(Get(m.fields, "role"), Str(text.value)))
  }

  function ToOpenAiMessages(messages: seq<Json>): Option<seq<Json>> {
    if messages == [] then Some([])
    else
      var done, last := ToOpenAiMessages(messages[..|messages| - 1]), ToOpenAiMessage(messages[|messages| - 1]);
      if done.None? || last.None? then None else Some(done.value + [last.value])
  }

  // ---- Tools ----

  const ANY_OBJECT := Obj(map["type" := Str("object")])

  function GetOr(f: Fields, key: string, default: Json): Json {
    if key in f then f[key] else default
  }

  function Copied(out: Fields, src: Fields, source: string, target: string): Fields {
    if source in src then out[target := src[source]] else out
  }

  function ToolToAnthropic(tool: Json): Option<Json> {
    if !tool.Obj? || Get(tool.fields, "type") != Str("function") || !Get(tool.fields, "function").Obj? then None
    else
      var f := Get(tool.fields, "function").fields;
      if !Get(f, "name").Str? then None
      else Some(Obj(Copied(map["name" := f["name"], "input_schema" := GetOr(f, "parameters", ANY_OBJECT)],
                           f, "description", "description")))
  }

  function ToolToOpenAi(tool: Json): Option<Json> {
    if !tool.Obj? || !Get(tool.fields, "name").Str? then None
    else
      var f := Copied(map["name" := tool.fields["name"],
                          "parameters" := GetOr(tool.fields, "input_schema", ANY_OBJECT)],
                      tool.fields, "description", "description");
      Some(Obj(map["type" := Str("function"), "function" := Obj(f)]))
  }

  function MapTools(f: Json -> Option<Json>, tools: seq<Json>): (r: Option<seq<Json>>)
    ensures r.Some? <==> forall i :: 0 <= i < |tools| ==> f(tools[i]).Some?
    ensures r.Some? ==> |r.value| == |tools| && forall i :: 0 <= i < |tools| ==> f(tools[i]) == Some(r.value[i])
  {
    if tools == [] then Some([])
    else
      var done, last := MapTools(f, tools[..|tools| - 1]), f(tools[|tools| - 1]);
      if done.None? || last.None? then None else Some(done.value + [last.value])
  }

  function ConvertTools(f: Json -> Option<Json>, tools: Json): Option<Json> {
    if !tools.Arr? then None
    else
      var r := MapTools(f, tools.items);
      if r.None? then None else Some(Arr(r.value))
  }

  method MapToolList(f: Json -> Option<Json>, tools: seq<Json>) returns (r: Option<seq<Json>>)
    ensures r == MapTools(f, tools)
  {
    var result: seq<Json> := [];
    var i := 0;
    while i < |tools|
      invariant 0 <= i <= |tools|
      invariant MapTools(f, tools[..i]) == Some(result)
    {
      assert tools[..i + 1][..i] == tools[..i];
      var converted := f(tools[i]);
      if converted.None? {
        return None;
      }
      result := result + [converted.value];
      i := i + 1;
    }
    assert tools[..i] == tools;
    return Some(result);
  }

  // ---- OpenAI to Anthropic ----

  function StopSequences(stop: Json): Option<Json> {
    if stop.Str? then Some(Arr([stop])) else if IsStrArr(stop) then Some(stop) else None
  }

  function MaxTokens(body: Fields, default: Option<int>): Option<Json> {
    var asked := GetOr(body, "max_completion_tokens", Get(body, "max_tokens"));
    if !asked.Null? then Some(asked) else if default.Some? then Some(Int(default.value)) else None
  }

  /** Everything but the optional parts. */
  function AnthropicCore(body: Fields, messages: seq<Json>, maxTokens: Json): Fields
    requires HasModel(body)
  {
    var systems := Systems(messages);
    var core := map["model" := body["model"], "messages" := Arr(Turns(messages)), "max_tokens" := maxTokens];
    if systems == [] then core else core["system" := Str(JoinSystem(systems))]
  }

  function CopyTuning(out: Fields, src: Fields): Fields {
    Copied(Copied(Copied(out, src, "temperature", "temperature"), src, "top_p", "top_p"), src, "stream", "stream")
  }

  /** The messages of an OpenAI request, none when the key is missing. */
  function MessagesOf(body: Fields): Json {
    GetOr(body, "messages", Arr([]))
  }

  /** The request that ToAnthropic puts together when no part is refused. */
  function Assembled(body: Fields, limit: Json): Fields
    requires HasModel(body) && MessagesOf(body).Arr?
    requires "stop" in body ==> StopSequences(body["stop"]).Some?
    requires "tools" in body ==> ConvertTools(ToolToAnthropic, body["tools"]).Some?
  {
    var tuned := CopyTuning(AnthropicCore(body, MessagesOf(body).items, limit), body);
    var stopped := if "stop" in body then tuned["stop_sequences" := StopSequences(body["stop"]).value] else tuned;
    if "tools" in body then stopped["tools" := ConvertTools(ToolToAnthropic, body["tools"]).value] else stopped
  }

  /** openai_to_anthropic_request; None is ProtocolError, or TypeError for a role that is a list or an object. */
  function ToAnthropic(body: Fields, default: Option<int>): Option<Fields> {
    if !OpenAiValid(body) || !MessagesOf(body).Arr? then None
    else
      var maxTokens := MaxTokens(body, default);
      if || !NoneRefused(MessagesOf(body).items) || maxTokens.None?
         || ("stop" in body && StopSequences(body["stop"]).None?)
         || ("tools" in body && ConvertTools(ToolToAnthropic, body["tools"]).None?)
      then None
      else
        var output := Assembled(body, maxTokens.value);
        if AnthropicValid(output) then Some(output) else None
  }

  method ConvertToolList(f: Json -> Option<Json>, tools: Json) returns (r: Option<Json>)
    ensures r == ConvertTools(f, tools)
  {
    if !tools.Arr? { return None; }
    var items := MapToolList(f, tools.items);
    return if items.None? then None else Some(Arr(items.value));
  }

  method OpenAiToAnthropic(body: Fields, default: Option<int>) returns (r: Option<Fields>)
    ensures r == ToAnthropic(body, default)
  {
    hide AnthropicValid, ConvertTools, StopSequences, NoneRefused, Turns, Systems, MaxTokens;
    if !OpenAiValid(body) || !GetOr(body, "messages", Arr([])).Arr? {
      return None;
    }
    var ok, turns, systems := SplitMessages(GetOr(body, "messages", Arr([])).items);
    var maxTokens := MaxTokens(body, default);
    if !ok || maxTokens.None? {
      return None;
    }
    var output: Fields := map["model" := body["model"], "messages" := Arr(turns), "max_tokens" := maxTokens.value];
    if systems != [] {
      output := output["system" := Str(JoinSystem(systems))];
    }
    output := CopyTuning(output, body);
    if "stop" in body {
      var stop := StopSequences(body["stop"]);
      if stop.None? { return None; }
      output := output["stop_sequences" := stop.value];
    }
    if "tools" in body {
      var tools := ConvertToolList(ToolToAnthropic, body["tools"]);
      if tools.None? { return None; }
      output := output["tools" := tools.value];
    }
    return if AnthropicValid(output) then Some(output) else None;
  }

  // ---- Anthropic to OpenAI ----

  /** The converted request, but for its tools. */
  function OpenAiCore(body: Fields, turns: seq<Json>): Fields
    requires HasModel(body) && Get(body, "max_tokens").Int?
  {
    var first := if "system" in body then [Message(Str("system"), body["system"])] else [];
    map["model" := body["model"], "messages" := Arr(first + turns), "max_tokens" := body["max_tokens"]]
  }

  function OpenAiOutput(body: Fields, turns: seq<Json>, tools: Option<Json>): Fields
    requires HasModel(body) && Get(body, "max_tokens").Int?
  {
    var output := Copied(CopyTuning(OpenAiCore(body, turns), body), body, "stop_sequences", "stop");
    if tools.Some? then output["tools" := tools.value] else output
  }

  /** anthropic_to_openai_request; None is ProtocolError, or TypeError for a role that is a list or an object. */
  function ToOpenAi(body: Fields): Option<Fields> {
    if !AnthropicValid(body) || ("system" in body && !body["system"].Str?) then None
    else
      var turns := ToOpenAiMessages(body["messages"].items);
      var tools := if "tools" in body then ConvertTools(ToolToOpenAi, body["tools"]) else None;
      if turns.None? || ("tools" in body && tools.None?) then None
      else Some(OpenAiOutput(body, turns.value, tools))
  }

  lemma {:induction false} RefusedPrefix(messages: seq<Json>, i: nat)
    requires i <= |messages| && ToOpenAiMessages(messages[..i]).None?
    ensures ToOpenAiMessages(messages).None?
    decreases |messages|
  {
    if i == |messages| {
      assert messages[..i] == messages;
    } else {
      var before := messages[..|messages| - 1];
      assert before[..i] == messages[..i];
      RefusedPrefix(before, i);
    }
  }

  method ConvertMessages(messages: seq<Json>) returns (r: Option<seq<Json>>)
    ensures r == ToOpenAiMessages(messages)
  {
    hide ToOpenAiMessage;
    var converted: seq<Json> := [];
    var i := 0;
    while i < |messages|
      invariant 0 <= i <= |messages|
      invariant ToOpenAiMessages(messages[..i]) == Some(converted)
    {
      assert messages[..i + 1][..i] == messages[..i];
      var message := ToOpenAiMessage(messages[i]);
      if message.None? {
        RefusedPrefix(messages, i + 1);
        return None;
      }
      converted := converted + [message.value];
      i := i + 1;
    }
    assert messages[..i] == messages;
    return Some(converted);
  }

  method AnthropicToOpenAi(body: Fields) returns (r: Option<Fields>)
    ensures r == ToOpenAi(body)
  {
    hide AnthropicMessage, ConvertTools, ToOpenAiMessages, Message;
    if !AnthropicValid(body) {
      return None;
    }
    var messages: seq<Json> := [];
    if "system" in body {
      if !body["system"].Str? { return None; }
      messages := [Message(Str("system"), body["system"])];
    }
    var converted := ConvertMessages(body["messages"].items);
    if converted.None? {
      return None;
    }
    messages := messages + converted.value;
    var output: Fields := map["model" := body["model"], "messages" := Arr(messages), "max_tokens" := body["max_tokens"]];
    output := Copied(CopyTuning(output, body), body, "stop_sequences", "stop");
    if "tools" in body {
      var tools := ConvertToolList(ToolToOpenAi, body["tools"]);
      if tools.None? { return None; }
      output := output["tools" := tools.value];
    }
    return Some(output);
  }

  // ---- Laws ----

  const MAPPED_KEYS :=
    {"model", "messages", "max_tokens", "system", "temperature", "top_p", "stream", "stop_sequences", "tools"}

  ghost predicate PlainMessage(m: Json) {
    && m.Obj? && m.fields.Keys == {"role", "content"} && m.fields["content"].Str?
    && (m.fields["role"] == Str("user") || m.fields["role"] == Str("assistant"))
  }

  ghost predicate PlainTool(t: Json) {
    && t.Obj? && t.fields.Keys <= {"name", "input_schema", "description"}
    && Get(t.fields, "name").Str? && "input_schema" in t.fields
  }

  ghost predicate PlainTools(tools: Json) {
    tools.Arr? && forall i :: 0 <= i < |tools.items| ==> PlainTool(tools.items[i])
  }

  /** Text-only, only mapped keys, tools with an explicit schema. */
  ghost predicate Plain(body: Fields) {
    && Get(body, "model").Str? && Get(body, "model").s != ""
    && Get(body, "max_tokens").Int? && Get(body, "max_tokens").n > 0
    && Get(body, "messages").Arr? && body.Keys <= MAPPED_KEYS
    && (forall i :: 0 <= i < |body["messages"].items| ==> PlainMessage(body["messages"].items[i]))
    && ("system" in body ==> body["system"].Str?)
    && ("stop_sequences" in body ==> IsStrArr(body["stop_sequences"]))
    && ("tools" in body ==> PlainTools(body["tools"]))
  }

  lemma PlainMessageKept(m: Json)
    requires PlainMessage(m)
    ensures ToOpenAiMessage(m) == Some(m) && KindOf(m) == Turn(m)
  {
    assert m.fields == map["role" := m.fields["role"], "content" := m.fields["content"]];
  }

  lemma {:induction false} PlainMessagesKept(messages: seq<Json>)
    requires forall i :: 0 <= i < |messages| ==> PlainMessage(messages[i])
    ensures ToOpenAiMessages(messages) == Some(messages)
    ensures NoneRefused(messages) && Turns(messages) == messages && Systems(messages) == []
  {
    hide PlainMessage, KindOf, ToOpenAiMessage;
    forall i | 0 <= i < |messages| ensures KindOf(messages[i]) == Turn(messages[i]) {
      PlainMessageKept(messages[i]);
    }
    if messages == [] {
    } else {
      var before, last := messages[..|messages| - 1], messages[|messages| - 1];
      PlainMessagesKept(before);
      PlainMessageKept(last);
      assert messages == before + [last];
    }
  }

  lemma SystemKind(text: Json)
    requires text.Str?
    ensures KindOf(Message(Str("system"), text)) == System(text.s)
  {
  }

  lemma NoMessages()
    ensures NoneRefused([]) && Turns([]) == [] && Systems([]) == []
  {
  }

  /** What one more message adds. */
  lemma LastMessage(before: seq<Json>, last: Json)
    ensures NoneRefused(before + [last]) <==> NoneRefused(before) && !KindOf(last).Refused?
    ensures var k := KindOf(last);
      && Turns(before + [last]) == Turns(before) + (if k.Turn? then [k.message] else [])
      && Systems(before + [last]) == Systems(before) + (if k.System? then [k.text] else [])
  {
    hide KindOf;
    var messages := before + [last];
    assert messages[..|before|] == before && messages[|before|] == last;
    if NoneRefused(messages) {
      forall i | 0 <= i < |before| ensures !KindOf(before[i]).Refused? {
        assert messages[i] == before[i];
      }
    }
  }

  lemma {:induction false} SystemFirst(text: Json, turns: seq<Json>)
    requires text.Str? && NoneRefused(turns)
    ensures var messages := [Message(Str("system"), text)] + turns;
      && NoneRefused(messages) && Turns(messages) == Turns(turns) && Systems(messages) == [text.s] + Systems(turns)
  {
    hide KindOf, NoneRefused, Turns, Systems;
    var first := Message(Str("system"), text);
    SystemKind(text);
    if turns == [] {
      NoMessages();
      LastMessage([], first);
      assert [first] + turns == [] + [first];
    } else {
      var before, last := turns[..|turns| - 1], turns[|turns| - 1];
      assert turns == before + [last];
      LastMessage(before, last);
      SystemFirst(text, before);
      LastMessage([first] + before, last);
      assert [first] + turns == ([first] + before) + [last];
      var k := KindOf(last);
      var more := if k.System? then [k.text] else [];
      assert ([text.s] + Systems(before)) + more == [text.s] + (Systems(before) + more);
    }
  }

  lemma PlainToolKept(t: Json)
    requires PlainTool(t)
    ensures ToolToOpenAi(t).Some? && ToolToAnthropic(ToolToOpenAi(t).value) == Some(t)
  {
    var back := ToolToAnthropic(ToolToOpenAi(t).value).value.fields;
    assert back.Keys == t.fields.Keys;
    assert back == t.fields;
  }

  lemma PlainToolsKept(tools: Json)
    requires PlainTools(tools)
    ensures ConvertTools(ToolToOpenAi, tools).Some?
    ensures ConvertTools(ToolToAnthropic, ConvertTools(ToolToOpenAi, tools).value) == Some(tools)
  {
    hide PlainTool, ToolToOpenAi, ToolToAnthropic;
    forall i | 0 <= i < |tools.items|
      ensures ToolToOpenAi(tools.items[i]).Some?
      ensures ToolToAnthropic(ToolToOpenAi(tools.items[i]).value) == Some(tools.items[i])
    {
      PlainToolKept(tools.items[i]);
    }
    var there := MapTools(ToolToOpenAi, tools.items).value;
    forall i | 0 <= i < |there| ensures ToolToAnthropic(there[i]) == Some(tools.items[i]) {
      assert Some(there[i]) == ToolToOpenAi(tools.items[i]);
    }
    var back := MapTools(ToolToAnthropic, there);
    assert back.Some? && back.value == tools.items;
  }

  ghost predicate CarriesCore(a: Fields, o: Fields)
    requires HasModel(a) && Get(a, "messages").Arr? && Get(a, "max_tokens").Int?
  {
    && Get(o, "model") == a["model"] && "max_completion_tokens" !in o && Get(o, "max_tokens") == a["max_tokens"]
    && "messages" in o
    && o["messages"] == Arr((if "system" in a then [Message(Str("system"), a["system"])] else []) + a["messages"].items)
  }

  ghost predicate CarriesTuning(a: Fields, o: Fields) {
    && ("temperature" in o <==> "temperature" in a) && Get(o, "temperature") == Get(a, "temperature")
    && ("top_p" in o <==> "top_p" in a) && Get(o, "top_p") == Get(a, "top_p")
    && ("stream" in o <==> "stream" in a) && Get(o, "stream") == Get(a, "stream")
  }

  ghost predicate CarriesRest(a: Fields, o: Fields) {
    && ("stop" in o <==> "stop_sequences" in a) && Get(o, "stop") == Get(a, "stop_sequences")
    && ("tools" in o <==> "tools" in a)
    && ("tools" in a ==> Some(o["tools"]) == ConvertTools(ToolToOpenAi, a["tools"]))
  }

  /** The OpenAI form of a plain Anthropic request, field by field. */
  ghost predicate OpenAiForm(a: Fields, o: Fields)
    requires HasModel(a) && Get(a, "messages").Arr? && Get(a, "max_tokens").Int?
  {
    CarriesCore(a, o) && CarriesTuning(a, o) && CarriesRest(a, o)
  }

  const TUNING := {"temperature", "top_p", "stream"}

  lemma TuningFacts(out: Fields, src: Fields)
    ensures CopyTuning(out, src).Keys == out.Keys + TUNING * src.Keys
    ensures forall k :: k in TUNING * src.Keys ==> CopyTuning(out, src)[k] == src[k]
    ensures forall k :: k in out.Keys - TUNING * src.Keys ==> CopyTuning(out, src)[k] == out[k]
  {
  }

  lemma OutputCarriesCore(a: Fields, tools: Option<Json>)
    requires HasModel(a) && Get(a, "messages").Arr? && Get(a, "max_tokens").Int?
    ensures CarriesCore(a, OpenAiOutput(a, a["messages"].items, tools))
  {
    hide CopyTuning, Message;
    TuningFacts(OpenAiCore(a, a["messages"].items), a);
  }

  lemma OutputCarriesTuning(a: Fields, turns: seq<Json>, tools: Option<Json>)
    requires HasModel(a) && Get(a, "max_tokens").Int?
    ensures CarriesTuning(a, OpenAiOutput(a, turns, tools))
  {
    hide CopyTuning, Message;
    TuningFacts(OpenAiCore(a, turns), a);
  }

  lemma OutputCarriesRest(a: Fields, turns: seq<Json>, tools: Option<Json>)
    requires HasModel(a) && Get(a, "max_tokens").Int?
    requires tools == if "tools" in a then ConvertTools(ToolToOpenAi, a["tools"]) else None
    requires "tools" in a ==> tools.Some?
    ensures CarriesRest(a, OpenAiOutput(a, turns, tools))
  {
    hide ConvertTools, CopyTuning, Message;
    TuningFacts(OpenAiCore(a, turns), a);
  }

  lemma PlainIsValid(a: Fields)
    requires Plain(a)
    ensures AnthropicValid(a)
  {
    hide PlainTools, IsStrArr;
  }

  lemma PlainToOpenAi(a: Fields)
    requires Plain(a)
    ensures ToOpenAi(a).Some? && OpenAiForm(a, ToOpenAi(a).value)
  {
    PlainIsValid(a);
    hide PlainMessage, AnthropicMessage, PlainTools, ConvertTools, ToOpenAiMessages, OpenAiOutput,
      CarriesCore, CarriesTuning, CarriesRest;
    var turns := a["messages"].items;
    var tools := if "tools" in a then ConvertTools(ToolToOpenAi, a["tools"]) else None;
    PlainMessagesKept(turns);
    if "tools" in a { PlainToolsKept(a["tools"]); }
    OutputCarriesCore(a, tools);
    OutputCarriesTuning(a, turns, tools);
    OutputCarriesRest(a, turns, tools);
  }

  lemma OpenAiFormConverts(a: Fields, o: Fields)
    requires Plain(a) && OpenAiForm(a, o)
    ensures OpenAiValid(o) && NoneRefused(o["messages"].items)
    ensures Turns(o["messages"].items) == a["messages"].items
    ensures Systems(o["messages"].items) == if "system" in a then [a["system"].s] else []
    ensures MaxTokens(o, None) == Some(a["max_tokens"])
    ensures "stop" in o ==> StopSequences(o["stop"]) == Some(a["stop_sequences"])
    ensures "tools" in o ==> ConvertTools(ToolToAnthropic, o["tools"]) == Some(a["tools"])
  {
    hide PlainMessage, PlainTools, ConvertTools, NoneRefused, Turns, Systems, AnthropicMessage;
    var turns := a["messages"].items;
    PlainMessagesKept(turns);
    if "system" in a {
      SystemFirst(a["system"], turns);
    } else {
      assert [] + turns == turns;
    }
    if "tools" in a { PlainToolsKept(a["tools"]); }
  }

  lemma {:induction false} JoinSystemGrows(parts: seq<string>, last: string)
    requires parts != []
    ensures JoinSystem(parts + [last]) == JoinSystem(parts) + "\n\n" + last
  {
    var all := parts + [last];
    assert all[1..] == parts[1..] + [last];
    if |parts| == 1 {
      assert all[1..] == [last];
    } else {
      JoinSystemGrows(parts[1..], last);
      assert JoinSystem(all) == parts[0] + "\n\n" + JoinSystem(all[1..]);
      assert parts[0] + "\n\n" + (JoinSystem(parts[1..]) + "\n\n" + last)
          == (parts[0] + "\n\n" + JoinSystem(parts[1..])) + "\n\n" + last;
    }
  }

  /** Main result: system texts are joined in order by blank lines. */
  lemma JoinSystemMeans(parts: seq<string>, last: string)
    ensures JoinSystem([]) == "" && JoinSystem([last]) == last
    ensures parts != [] ==> JoinSystem(parts + [last]) == JoinSystem(parts) + "\n\n" + last
  {
    if parts != [] { JoinSystemGrows(parts, last); }
  }

  ghost predicate KeysConverted(body: Fields, out: Fields)
    requires HasModel(body) && MessagesOf(body).Arr?
  {
    out.Keys == {"model", "messages", "max_tokens"} + (if Systems(MessagesOf(body).items) != [] then {"system"} else {})
      + {"temperature", "top_p", "stream"} * body.Keys
      + (if "stop" in body then {"stop_sequences"} else {}) + ({"tools"} * body.Keys)
  }

  ghost predicate CoreConverted(body: Fields, limit: Json, out: Fields)
    requires HasModel(body) && MessagesOf(body).Arr?
  {
    var turns, systems := Turns(MessagesOf(body).items), Systems(MessagesOf(body).items);
    && {"model", "messages", "max_tokens"} <= out.Keys
    && out["model"] == body["model"] && out["messages"] == Arr(turns) && out["max_tokens"] == limit
    && (systems != [] ==> "system" in out && out["system"] == Str(JoinSystem(systems)))
  }

  ghost predicate RestConverted(body: Fields, out: Fields) {
    && ("temperature" in body ==> "temperature" in out && out["temperature"] == body["temperature"])
    && ("top_p" in body ==> "top_p" in out && out["top_p"] == body["top_p"])
    && ("stream" in body ==> "stream" in out && out["stream"] == body["stream"])
    && ("stop" in body ==> "stop_sequences" in out && Some(out["stop_sequences"]) == StopSequences(body["stop"]))
    && ("tools" in body ==> "tools" in out && Some(out["tools"]) == ConvertTools(ToolToAnthropic, body["tools"]))
  }

  /** An Anthropic request field by field in terms of the OpenAI request it came from. */
  ghost predicate FieldsConverted(body: Fields, limit: Json, out: Fields)
    requires HasModel(body) && MessagesOf(body).Arr?
  {
    KeysConverted(body, out) && CoreConverted(body, limit, out) && RestConverted(body, out)
  }

  lemma AssembledKeys(body: Fields, limit: Json)
    requires HasModel(body) && MessagesOf(body).Arr?
    requires "stop" in body ==> StopSequences(body["stop"]).Some?
    requires "tools" in body ==> ConvertTools(ToolToAnthropic, body["tools"]).Some?
    ensures KeysConverted(body, Assembled(body, limit))
  {
    hide Turns, Systems, ConvertTools, StopSequences, CopyTuning, JoinSystem, MessagesOf;
    TuningFacts(AnthropicCore(body, MessagesOf(body).items, limit), body);
  }

  lemma AssembledCore(body: Fields, limit: Json)
    requires HasModel(body) && MessagesOf(body).Arr?
    requires "stop" in body ==> StopSequences(body["stop"]).Some?
    requires "tools" in body ==> ConvertTools(ToolToAnthropic, body["tools"]).Some?
    ensures CoreConverted(body, limit, Assembled(body, limit))
  {
    hide Turns, Systems, ConvertTools, StopSequences, CopyTuning, JoinSystem, MessagesOf;
    TuningFacts(AnthropicCore(body, MessagesOf(body).items, limit), body);
  }

  lemma AssembledRest(body: Fields, limit: Json)
    requires HasModel(body) && MessagesOf(body).Arr?
    requires "stop" in body ==> StopSequences(body["stop"]).Some?
    requires "tools" in body ==> ConvertTools(ToolToAnthropic, body["tools"]).Some?
    ensures RestConverted(body, Assembled(body, limit))
  {
    hide Turns, Systems, ConvertTools, StopSequences, CopyTuning, AnthropicCore, MessagesOf;
    TuningFacts(AnthropicCore(body, MessagesOf(body).items, limit), body);
  }

  lemma AssembledFields(body: Fields, limit: Json)
    requires HasModel(body) && MessagesOf(body).Arr?
    requires "stop" in body ==> StopSequences(body["stop"]).Some?
    requires "tools" in body ==> ConvertTools(ToolToAnthropic, body["tools"]).Some?
    ensures FieldsConverted(body, limit, Assembled(body, limit))
  {
    hide Assembled, KeysConverted, CoreConverted, RestConverted;
    AssembledKeys(body, limit);
    AssembledCore(body, limit);
    AssembledRest(body, limit);
  }

  ghost predicate SameUnder(x: Fields, y: Fields, k: string) {
    (k in x <==> k in y) && (k in x && k in y ==> x[k] == y[k])
  }

  lemma SameUnderAll(x: Fields, y: Fields)
    requires x.Keys <= MAPPED_KEYS && y.Keys <= MAPPED_KEYS
    requires forall k :: k in MAPPED_KEYS ==> SameUnder(x, y, k)
    ensures x == y
  {
    forall k ensures (k in x <==> k in y) && (k in x && k in y ==> x[k] == y[k]) {
      assert k in MAPPED_KEYS ==> SameUnder(x, y, k);
    }
    assert x.Keys == y.Keys;
  }

  lemma SameRequest(x: Fields, y: Fields)
    requires x.Keys <= MAPPED_KEYS && y.Keys <= MAPPED_KEYS
    requires SameUnder(x, y, "model") && SameUnder(x, y, "messages") && SameUnder(x, y, "max_tokens")
    requires SameUnder(x, y, "system") && SameUnder(x, y, "stop_sequences") && SameUnder(x, y, "tools")
    requires SameUnder(x, y, "temperature") && SameUnder(x, y, "top_p") && SameUnder(x, y, "stream")
    ensures x == y
  {
    hide SameUnder;
    forall k | k in MAPPED_KEYS ensures SameUnder(x, y, k) {
    }
    SameUnderAll(x, y);
  }

  /** Which keys a converted request has. */
  lemma KeysBack(body: Fields, out: Fields)
    requires HasModel(body) && MessagesOf(body).Arr? && KeysConverted(body, out)
    ensures out.Keys <= MAPPED_KEYS
    ensures "system" in out <==> Systems(MessagesOf(body).items) != []
    ensures "stop_sequences" in out <==> "stop" in body
    ensures "tools" in out <==> "tools" in body
    ensures "temperature" in out <==> "temperature" in body
    ensures "top_p" in out <==> "top_p" in body
    ensures "stream" in out <==> "stream" in body
  {
    hide Systems, MessagesOf;
  }

  lemma SameCore(a: Fields, o: Fields, back: Fields)
    requires Plain(a) && HasModel(o) && MessagesOf(o).Arr? && CarriesCore(a, o) && CoreConverted(o, a["max_tokens"], back)
    requires "system" in back <==> Systems(MessagesOf(o).items) != []
    requires Turns(MessagesOf(o).items) == a["messages"].items
    requires Systems(MessagesOf(o).items) == if "system" in a then [a["system"].s] else []
    requires "system" in a ==> JoinSystem([a["system"].s]) == a["system"].s
    ensures SameUnder(back, a, "model") && SameUnder(back, a, "messages") && SameUnder(back, a, "max_tokens")
    ensures SameUnder(back, a, "system")
  {
    hide PlainMessage, PlainTools, Turns, Systems, MessagesOf, IsStrArr, JoinSystem;
  }

  lemma SameRest(a: Fields, o: Fields, back: Fields)
    requires CarriesTuning(a, o) && CarriesRest(a, o) && RestConverted(o, back)
    requires "stop" in o ==> StopSequences(o["stop"]) == Some(a["stop_sequences"])
    requires "tools" in o ==> ConvertTools(ToolToAnthropic, o["tools"]) == Some(a["tools"])
    requires "stop_sequences" in back <==> "stop" in o
    requires "tools" in back <==> "tools" in o
    requires "temperature" in back <==> "temperature" in o
    requires "top_p" in back <==> "top_p" in o
    requires "stream" in back <==> "stream" in o
    ensures SameUnder(back, a, "stop_sequences") && SameUnder(back, a, "tools")
    ensures SameUnder(back, a, "temperature") && SameUnder(back, a, "top_p") && SameUnder(back, a, "stream")
  {
    hide ConvertTools, StopSequences;
  }

  lemma ReassembledIsOriginal(a: Fields, o: Fields)
    requires Plain(a) && OpenAiForm(a, o)
    ensures HasModel(o) && MessagesOf(o).Arr? && NoneRefused(MessagesOf(o).items)
    ensures "stop" in o ==> StopSequences(o["stop"]).Some?
    ensures "tools" in o ==> ConvertTools(ToolToAnthropic, o["tools"]).Some?
    ensures Assembled(o, a["max_tokens"]) == a
  {
    OpenAiFormConverts(a, o);
    var back := Assembled(o, a["max_tokens"]);
    AssembledFields(o, a["max_tokens"]);
    KeysBack(o, back);
    hide Assembled, AnthropicValid, PlainMessage, PlainTools, ConvertTools, NoneRefused, Turns, Systems, StopSequences,
      KeysConverted, IsStrArr;
    if "system" in a { JoinSystemMeans([], a["system"].s); }
    SameCore(a, o, back);
    SameRest(a, o, back);
    SameRequest(back, a);
  }

  lemma OpenAiFormBack(a: Fields, o: Fields)
    requires Plain(a) && OpenAiForm(a, o)
    ensures ToAnthropic(o, None) == Some(a)
  {
    OpenAiFormConverts(a, o);
    ReassembledIsOriginal(a, o);
    PlainIsValid(a);
    hide Assembled, AnthropicValid, OpenAiForm, Plain, ConvertTools, NoneRefused, MaxTokens, StopSequences;
  }

  /** Main result: on plain requests, going to OpenAI and back is the identity. */
  lemma RoundTripIsIdentity(a: Fields)
    requires Plain(a)
    ensures ToOpenAi(a).Some? && ToAnthropic(ToOpenAi(a).value, None) == Some(a)
  {
    PlainToOpenAi(a);
    OpenAiFormBack(a, ToOpenAi(a).value);
  }

  lemma {:induction false} TurnsArePlain(messages: seq<Json>)
    ensures forall i :: 0 <= i < |Turns(messages)| ==> PlainMessage(Turns(messages)[i])
  {
    if messages == [] {
    } else {
      TurnsArePlain(messages[..|messages| - 1]);
    }
  }

  lemma ConvertedToolsArePlain(tools: Json)
    requires ConvertTools(ToolToAnthropic, tools).Some?
    ensures PlainTools(ConvertTools(ToolToAnthropic, tools).value)
  {
    var out := MapTools(ToolToAnthropic, tools.items).value;
    forall i | 0 <= i < |out| ensures PlainTool(out[i]) {
      assert ToolToAnthropic(tools.items[i]) == Some(out[i]);
    }
  }

  lemma StopIsTexts(stop: Json)
    ensures StopSequences(stop).Some? ==> IsStrArr(StopSequences(stop).value)
  {
  }

  /** max_completion_tokens wins over max_tokens, even when it is null; the default stands in for null. */
  function Limit(body: Fields, default: Option<int>): Json {
    var asked := if "max_completion_tokens" in body then body["max_completion_tokens"]
                 else if "max_tokens" in body then body["max_tokens"] else Null;
    if asked == Null && default.Some? then Int(default.value) else asked
  }

  lemma LimitIsMaxTokens(body: Fields, default: Option<int>)
    ensures MaxTokens(body, default) == if Limit(body, default).Null? then None else Some(Limit(body, default))
  {
  }

  predicate ConvertibleTools(f: Json -> Option<Json>, body: Fields) {
    "tools" in body ==> body["tools"].Arr? && forall i :: 0 <= i < |body["tools"].items| ==> f(body["tools"].items[i]).Some?
  }

  lemma ToolsConvertIff(f: Json -> Option<Json>, body: Fields)
    ensures ConvertibleTools(f, body) <==> ("tools" in body ==> ConvertTools(f, body["tools"]).Some?)
  {
  }

  /** The assembled request before it is validated. */
  lemma AssembledIsValidIff(body: Fields, out: Fields)
    requires HasModel(body) && MessagesOf(body).Arr?
    requires {"model", "messages", "max_tokens"} <= out.Keys && out["model"] == body["model"]
    requires out["messages"] == Arr(Turns(MessagesOf(body).items)) && ("system" in out ==> out["system"].Str?)
    ensures AnthropicValid(out) <==> out["max_tokens"].Int? && out["max_tokens"].n > 0
  {
    hide Turns;
    TurnsArePlain(MessagesOf(body).items);
  }

  lemma StopMeans(stop: Json)
    ensures StopSequences(stop).Some? <==> stop.Str? || IsStrArr(stop)
    ensures stop.Str? ==> StopSequences(stop) == Some(Arr([stop]))
    ensures IsStrArr(stop) ==> StopSequences(stop) == Some(stop)
  {
  }

  lemma AssembledShape(body: Fields, limit: Json)
    requires HasModel(body) && MessagesOf(body).Arr?
    requires "stop" in body ==> StopSequences(body["stop"]).Some?
    requires "tools" in body ==> ConvertTools(ToolToAnthropic, body["tools"]).Some?
    ensures var out := Assembled(body, limit);
      && {"model", "messages", "max_tokens"} <= out.Keys && out["model"] == body["model"]
      && out["messages"] == Arr(Turns(MessagesOf(body).items)) && ("system" in out ==> out["system"].Str?)
      && out["max_tokens"] == limit
  {
    hide Turns, Systems, ConvertTools, StopSequences, JoinSystem, Assembled;
    AssembledFields(body, limit);
  }

  /** Main result: exactly which OpenAI requests convert, and into what. */
  lemma ToAnthropicIff(body: Fields, default: Option<int>)
    ensures ToAnthropic(body, default).Some? <==>
      && Get(body, "model").Str? && Get(body, "model").s != "" && MessagesOf(body).Arr?
      && (forall i :: 0 <= i < |MessagesOf(body).items| ==> !KindOf(MessagesOf(body).items[i]).Refused?)
      && Limit(body, default).Int? && Limit(body, default).n > 0
      && ("stop" in body ==> body["stop"].Str? || IsStrArr(body["stop"]))
      && ConvertibleTools(ToolToAnthropic, body)
    ensures ToAnthropic(body, default).Some? ==>
      FieldsConverted(body, Limit(body, default), ToAnthropic(body, default).value)
  {
    LimitIsMaxTokens(body, default);
    ToolsConvertIff(ToolToAnthropic, body);
    if "stop" in body { StopMeans(body["stop"]); }
    hide AnthropicValid, KindOf, Assembled, FieldsConverted, MaxTokens, StopSequences, ConvertTools,
      ConvertibleTools, IsStrArr, Limit;
    if && HasModel(body) && MessagesOf(body).Arr? && NoneRefused(MessagesOf(body).items)
       && MaxTokens(body, default).Some?
       && ("stop" in body ==> StopSequences(body["stop"]).Some?)
       && ("tools" in body ==> ConvertTools(ToolToAnthropic, body["tools"]).Some?)
    {
      var limit := MaxTokens(body, default).value;
      AssembledFields(body, limit);
      AssembledShape(body, limit);
      AssembledIsValidIff(body, Assembled(body, limit));
    }
  }

  /** Every request converted from OpenAI is plain. */
  lemma ConvertedIsPlain(body: Fields, default: Option<int>)
    requires ToAnthropic(body, default).Some?
    ensures Plain(ToAnthropic(body, default).value)
  {
    hide ToAnthropic, PlainMessage, PlainTools, ConvertTools, ConvertibleTools, Turns, Systems, IsStrArr, StopSequences,
      KeysConverted, KindOf;
    ToAnthropicIff(body, default);
    KeysBack(body, ToAnthropic(body, default).value);
    TurnsArePlain(MessagesOf(body).items);
    if "tools" in body { ConvertedToolsArePlain(body["tools"]); }
    if "stop" in body { StopIsTexts(body["stop"]); }
  }

  /** Main result: over all requests, the plain ones are exactly those that come back unchanged. */
  lemma RoundTripIffPlain(a: Fields)
    ensures ToOpenAi(a).Some? && ToAnthropic(ToOpenAi(a).value, None) == Some(a) <==> Plain(a)
  {
    if Plain(a) {
      RoundTripIsIdentity(a);
    } else if ToOpenAi(a).Some? && ToAnthropic(ToOpenAi(a).value, None).Some? {
      ConvertedIsPlain(ToOpenAi(a).value, None);
    }
  }

  /** Main result: OpenAI to Anthropic to OpenAI to Anthropic is converting once. */
  lemma ConvertingAgainChangesNothing(body: Fields, default: Option<int>)
    requires ToAnthropic(body, default).Some?
    ensures var once := ToAnthropic(body, default).value;
      ToOpenAi(once).Some? && ToAnthropic(ToOpenAi(once).value, None) == Some(once)
  {
    ConvertedIsPlain(body, default);
    RoundTripIsIdentity(ToAnthropic(body, default).value);
  }

  lemma AnthropicTarget(body: Fields, default: Option<int>)
    ensures ToAnthropic(body, default).Some? ==> AnthropicValid(ToAnthropic(body, default).value)
  {
    hide AnthropicValid, Assembled, NoneRefused, MaxTokens, ConvertTools, StopSequences;
  }

  predicate IsAnthropicMessage(m: Json) {
    && m.Obj? && (Get(m.fields, "role") == Str("user") || Get(m.fields, "role") == Str("assistant"))
    && (Get(m.fields, "content").Str? || Get(m.fields, "content").Arr?)
  }

  /** What the Anthropic validator accepts. */
  predicate IsAnthropicRequest(body: Fields) {
    && Get(body, "model").Str? && Get(body, "model").s != ""
    && Get(body, "max_tokens").Int? && Get(body, "max_tokens").n >= 1
    && Get(body, "messages").Arr?
    && (forall i :: 0 <= i < |Get(body, "messages").items| ==> IsAnthropicMessage(Get(body, "messages").items[i]))
    && !(Get(body, "system").Bool? || Get(body, "system").Int? || Get(body, "system").Float? || Get(body, "system").Obj?)
  }

  lemma {:induction false} MessagesConvertIff(messages: seq<Json>)
    ensures ToOpenAiMessages(messages).Some? <==>
      forall i :: 0 <= i < |messages| ==> ToOpenAiMessage(messages[i]).Some?
    ensures ToOpenAiMessages(messages).Some? ==>
      && |ToOpenAiMessages(messages).value| == |messages|
      && forall i :: 0 <= i < |messages| ==> ToOpenAiMessage(messages[i]) == Some(ToOpenAiMessages(messages).value[i])
  {
    hide ToOpenAiMessage;
    if messages == [] {
    } else {
      MessagesConvertIff(messages[..|messages| - 1]);
    }
  }

  lemma ValidatorMeans(body: Fields)
    ensures AnthropicValid(body) <==> IsAnthropicRequest(body)
  {
  }

  /** Main result: exactly which Anthropic requests convert, and into what. */
  lemma ToOpenAiIff(body: Fields)
    ensures ToOpenAi(body).Some? <==>
      && IsAnthropicRequest(body) && ("system" in body ==> body["system"].Str?)
      && (forall i :: 0 <= i < |body["messages"].items| ==> ToOpenAiMessage(body["messages"].items[i]).Some?)
      && ConvertibleTools(ToolToOpenAi, body)
    ensures ToOpenAi(body).Some? ==>
      var out, turns := ToOpenAi(body).value, ToOpenAiMessages(body["messages"].items).value;
      var first := if "system" in body then [Obj(map["role" := Str("system"), "content" := body["system"]])] else [];
      && out.Keys == {"model", "messages", "max_tokens"} + {"temperature", "top_p", "stream", "tools"} * body.Keys
           + (if "stop_sequences" in body then {"stop"} else {})
      && out["model"] == body["model"] && out["max_tokens"] == body["max_tokens"] && out["messages"] == Arr(first + turns)
      && CarriesTuning(body, out) && CarriesRest(body, out)
  {
    ToolsConvertIff(ToolToOpenAi, body);
    ValidatorMeans(body);
    hide ToOpenAiMessage, ToOpenAiMessages, ConvertTools, ConvertibleTools, IsAnthropicRequest, AnthropicMessage,
      CarriesTuning, CarriesRest, CopyTuning;
    if AnthropicValid(body) {
      var messages := body["messages"].items;
      MessagesConvertIff(messages);
      if ToOpenAiMessages(messages).Some? && ("tools" in body ==> ConvertTools(ToolToOpenAi, body["tools"]).Some?) {
        var turns := ToOpenAiMessages(messages).value;
        var tools := if "tools" in body then ConvertTools(ToolToOpenAi, body["tools"]) else None;
        OutputCarriesTuning(body, turns, tools);
        OutputCarriesRest(body, turns, tools);
        TuningFacts(OpenAiCore(body, turns), body);
      }
    }
  }

  lemma OpenAiTarget(body: Fields)
    ensures ToOpenAi(body).Some? ==> OpenAiValid(ToOpenAi(body).value)
  {
    ToOpenAiIff(body);
    hide ToOpenAi, ToOpenAiMessages, ToOpenAiMessage, ConvertibleTools, CarriesTuning, CarriesRest, IsAnthropicMessage;
  }

  /** Main result: what is converted passes the target's own validator, in both directions. */
  lemma ConvertedPassesTarget(body: Fields, default: Option<int>)
    ensures ToAnthropic(body, default).Some? ==> AnthropicValid(ToAnthropic(body, default).value)
    ensures ToOpenAi(body).Some? ==> OpenAiValid(ToOpenAi(body).value)
  {
    AnthropicTarget(body, default);
    OpenAiTarget(body);
  }

  // ---- Message order ----

  /** The positions of the non-system messages, in order. */
  function TurnPositions(messages: seq<Json>, n: nat): seq<nat>
    requires n <= |messages|
  {
    if n == 0 then []
    else TurnPositions(messages, n - 1) + if KindOf(messages[n - 1]).Turn? then [n - 1] else []
  }

  ghost predicate InOrder(messages: seq<Json>, at: seq<nat>, turns: seq<Json>) {
    && |turns| == |at|
    && (forall k :: 0 <= k < |at| ==> at[k] < |messages| && KindOf(messages[at[k]]) == Turn(turns[k]))
    && (forall j, k :: 0 <= j < k < |at| ==> at[j] < at[k])
    && (forall i :: 0 <= i < |messages| && KindOf(messages[i]).Turn? ==> i in at)
  }

  lemma InOrderGrows(messages: seq<Json>, last: Json, at: seq<nat>, turns: seq<Json>)
    requires InOrder(messages, at, turns)
    ensures !KindOf(last).Turn? ==> InOrder(messages + [last], at, turns)
    ensures KindOf(last).Turn? ==> InOrder(messages + [last], at + [|messages|], turns + [KindOf(last).message])
  {
    hide KindOf;
    var at' := at + [|messages|];
    assert forall i :: i in at ==> i in at';
    assert at'[|at|] == |messages|;
  }

  lemma NothingInOrder()
    ensures InOrder([], TurnPositions([], 0), Turns([]))
  {
  }

  lemma {:induction false} PositionsOfPrefix(messages: seq<Json>, n: nat)
    requires n < |messages|
    ensures TurnPositions(messages[..|messages| - 1], n) == TurnPositions(messages, n)
  {
    hide KindOf;
    if n == 0 {
    } else {
      PositionsOfPrefix(messages, n - 1);
    }
  }

  /** Main result: converted messages are the non-system ones, in their order, role and text kept. */
  lemma {:induction false} TurnsKeepOrder(messages: seq<Json>)
    ensures InOrder(messages, TurnPositions(messages, |messages|), Turns(messages))
  {
    hide KindOf, InOrder;
    if messages != [] {
      var before, last := messages[..|messages| - 1], messages[|messages| - 1];
      TurnsKeepOrder(before);
      PositionsOfPrefix(messages, |before|);
      InOrderGrows(before, last, TurnPositions(before, |before|), Turns(before));
      assert before + [last] == messages;
      var at := TurnPositions(before, |before|);
      assert Turns(before) + [] == Turns(before) && at + [] == at;
    } else {
      NothingInOrder();
    }
  }

  // ---- What the parts of a conversion mean ----

  /** Nothing that bool() takes for true. */
  predicate Falsy(j: Json) {
    j == Null || j == Bool(false) || j == Int(0) || (j.Float? && j.f.num == 0) || j == Str("") || j == Arr([]) || j == Obj(map[])
  }

  /** Main result: which OpenAI messages are system texts and turns, and what becomes of them; all others are refused. */
  lemma KindIff(m: Json)
    ensures m.Obj? ==>
      var role, content := Get(m.fields, "role"), Get(m.fields, "content");
      var isText := content.Str? && Falsy(Get(m.fields, "tool_calls"));
      && (KindOf(m).System? <==> isText && role == Str("system"))
      && (KindOf(m).Turn? <==> isText && (role == Str("user") || role == Str("assistant")))
      && (KindOf(m).System? ==> KindOf(m).text == content.s)
      && (KindOf(m).Turn? ==> KindOf(m).message == Obj(map["role" := role, "content" := content]))
    ensures !m.Obj? ==> KindOf(m).Refused?
  {
  }

  predicate IsBlockOfText(j: Json) {
    j.Obj? && "type" in j.fields && j.fields["type"] == Str("text") && "text" in j.fields && j.fields["text"].Str?
  }

  lemma OneBlock(b: Json)
    requires IsBlockOfText(b)
    ensures BlockTexts([b]) == Some(b.fields["text"].s)
  {
    assert [b][1..] == [] && BlockTexts([]) == Some("");
    assert b.fields["text"].s + "" == b.fields["text"].s;
  }

  lemma BlockIff(j: Json)
    ensures IsTextBlock(j) <==> IsBlockOfText(j)
  {
  }

  /** Only text blocks convert. */
  lemma {:induction false} BlocksConvertIff(blocks: seq<Json>)
    ensures BlockTexts(blocks).Some? <==> forall i :: 0 <= i < |blocks| ==> IsBlockOfText(blocks[i])
  {
    BlockIff(if blocks == [] then Null else blocks[0]);
    hide IsBlockOfText, IsTextBlock;
    if blocks == [] {
    } else {
      BlocksConvertIff(blocks[1..]);
      assert forall i :: 0 < i < |blocks| ==> blocks[i] == blocks[1..][i - 1];
    }
  }

  lemma BlocksCons(first: Json, rest: seq<Json>)
    ensures BlockTexts([first] + rest).Some? ==>
      && BlockTexts(rest).Some? && IsTextBlock(first)
      && BlockTexts([first] + rest).value == Get(first.fields, "text").s + BlockTexts(rest).value
    ensures BlockTexts(rest).Some? && IsTextBlock(first) ==> BlockTexts([first] + rest).Some?
  {
    hide IsTextBlock;
    assert ([first] + rest)[1..] == rest;
  }

  lemma NoBlocks()
    ensures BlockTexts([]) == Some("")
  {
  }

  /** Main result: the texts of content blocks are put together in order. */
  lemma {:induction false} BlockTextsMean(blocks: seq<Json>, more: seq<Json>)
    requires BlockTexts(blocks).Some? && BlockTexts(more).Some?
    ensures BlockTexts(blocks + more) == Some(BlockTexts(blocks).value + BlockTexts(more).value)
  {
    hide BlockTexts;
    if blocks == [] {
      NoBlocks();
      assert blocks + more == more && "" + BlockTexts(more).value == BlockTexts(more).value;
    } else {
      var first, rest := blocks[0], blocks[1..];
      assert blocks == [first] + rest && blocks + more == [first] + (rest + more);
      BlocksCons(first, rest);
      BlockTextsMean(rest, more);
      BlocksCons(first, rest + more);
      var text, tail := Get(first.fields, "text").s, BlockTexts(more).value;
      assert text + (BlockTexts(rest).value + tail) == (text + BlockTexts(rest).value) + tail;
    }
  }

  /** Main result: what a tool becomes; a missing schema becomes {"type": "object"}. */
  lemma ToolsMean(t: Json)
    ensures ToolToAnthropic(t).Some? <==>
      t.Obj? && Get(t.fields, "type") == Str("function") && Get(t.fields, "function").Obj?
      && Get(Get(t.fields, "function").fields, "name").Str?
    ensures ToolToAnthropic(t).Some? ==>
      var f, out := t.fields["function"].fields, ToolToAnthropic(t).value.fields;
      && out.Keys == {"name", "input_schema"} + (if "description" in f then {"description"} else {})
      && out["name"] == f["name"] && ("description" in f ==> out["description"] == f["description"])
      && out["input_schema"] == (if "parameters" in f then f["parameters"] else Obj(map["type" := Str("object")]))
    ensures ToolToOpenAi(t).Some? <==> t.Obj? && Get(t.fields, "name").Str?
    ensures ToolToOpenAi(t).Some? ==>
      var tool := ToolToOpenAi(t).value.fields;
      && tool.Keys == {"type", "function"} && tool["type"] == Str("function") && tool["function"].Obj?
      && var out := tool["function"].fields;
      && out.Keys == {"name", "parameters"} + (if "description" in t.fields then {"description"} else {})
      && out["name"] == t.fields["name"] && ("description" in t.fields ==> out["description"] == t.fields["description"])
      && out["parameters"] == (if "input_schema" in t.fields then t.fields["input_schema"] else Obj(map["type" := Str("object")]))
  {
  }

  lemma KeysAre(body: Fields, out: Fields)
    requires HasModel(body) && MessagesOf(body).Arr? && KeysConverted(body, out)
    ensures {"model", "messages", "max_tokens"} <= out.Keys
    ensures Systems(MessagesOf(body).items) != [] ==> "system" in out
    ensures forall k :: k in {"temperature", "top_p", "stream", "tools"} && k in body ==> k in out
    ensures "stop" in body ==> "stop_sequences" in out
  {
    hide Systems, MessagesOf;
  }

  /** A message keeps its role; its content becomes one text. */
  lemma MessageMeans(m: Json)
    requires m.Obj?
    ensures var content := Get(m.fields, "content");
      && (ToOpenAiMessage(m).Some? <==> content.Str? || (content.Arr? && BlockTexts(content.items).Some?))
      && (ToOpenAiMessage(m).Some? ==>
            ToOpenAiMessage(m).value == Obj(map["role" := Get(m.fields, "role"),
              "content" := if content.Str? then content else Str(BlockTexts(content.items).value)]))
  {
  }
}
