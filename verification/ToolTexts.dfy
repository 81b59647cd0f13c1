/**
  Joining tool calls with their results across the provider message shapes (distil/artifacts.py,
  `_iter_tool_texts`): the call says what was attempted, the result only whether it happened.
  Call arguments and nested content are given already rendered to text.
*/
module ToolTexts {
  import opened Wrappers

  datatype Role = Assistant | User | System | ToolRole

  /** A content block. */
  datatype Block =
    | FunctionCall(id: string, name: string, args: string)
    | FunctionOutput(id: string, text: string)
    | ToolUse(id: string, name: string, input: Option<string>)   // the arguments, when the input is a dictionary
    | ToolResult(id: string, text: string)
    | TextBlock(text: string)
    | OtherBlock

  /** Content; flat is what it reads as when flattened to one text. */
  datatype Content = Text(text: string) | Blocks(blocks: seq<Block>, flat: string) | NoContent(flat: string)

  datatype ToolCall = ToolCall(id: string, name: string, args: string)

  /** An entry of a flat list that is itself a call or a result; the text of a tool result is its content. */
  datatype Item =
    | CallItem(id: string, name: string, args: string)
    | OutputItem(id: string, text: string)
    | UseItem(id: string, name: string, input: Option<string>)
    | ResultItem(id: string)

  /** A message; item is set when the message is itself a call or result. */
  datatype Message =
    | Message(role: Role, content: Content, toolCalls: seq<ToolCall>, toolCallId: string, item: Option<Item>)
    | NotADict

  /** What a payload says, one thing after the other. */
  datatype Event = Say(text: string) | Call(id: string, call: string) | Result(id: string, text: string)

  /** What is handed to the operation extractor: narration, or a call already known to have succeeded. */
  datatype Emitted = Narration(text: string) | Adjudicated(call: string)

  // ---------------------------------------------------------------- from messages to events

  function Rendered(name: string, args: string): string {
    name + "(" + args + ")"
  }

  function CallEvents(calls: seq<ToolCall>, n: nat): seq<Event>
    requires n <= |calls|
  {
    if n == 0 then []
    else CallEvents(calls, n - 1) + [Call(calls[n - 1].id, Rendered(calls[n - 1].name, calls[n - 1].args))]
  }

  /** Only the assistant narrates outcomes. */
  predicate Narrates(role: Role) {
    role != User && role != System
  }

  function BlockEvent(role: Role, b: Block): seq<Event> {
    match b
    case FunctionCall(id, name, args) => [Call(id, Rendered(name, args))]
    case FunctionOutput(id, text) => [Result(id, text)]
    case ToolUse(id, name, input) => if input.Some? then [Call(id, Rendered(name, input.value))] else []
    case ToolResult(id, text) => [Result(id, text)]
    case TextBlock(text) => if Narrates(role) then [Say(text)] else []
    case OtherBlock => []
  }

  function BlockEvents(role: Role, blocks: seq<Block>, n: nat): seq<Event>
    requires n <= |blocks|
  {
    if n == 0 then [] else BlockEvents(role, blocks, n - 1) + BlockEvent(role, blocks[n - 1])
  }

  function FlatText(c: Content): string {
    if c.Text? then c.text else c.flat
  }

  function BlockOfItem(item: Item, content: Content): Block {
    match item
    case CallItem(id, name, args) => FunctionCall(id, name, args)
    case OutputItem(id, text) => FunctionOutput(id, text)
    case UseItem(id, name, input) => ToolUse(id, name, input)
    case ResultItem(id) => ToolResult(id, FlatText(content))
  }

  function BlocksOf(m: Message): seq<Block>
    requires m.Message?
  {
    if m.item.Some? then [BlockOfItem(m.item.value, m.content)]
    else if m.content.Blocks? then m.content.blocks
    else []
  }

  /** A message whose text is narration: a non-empty string that no tool, user or system says. */
  predicate Speaks(m: Message) {
    m.Message? && m.content.Text? && m.content.text != "" && Narrates(m.role) && m.role != ToolRole
  }

  function SpokenEvents(m: Message): seq<Event>
    requires m.Message?
  {
    if Speaks(m) then [Say(m.content.text)] else []
  }

  function RestEvents(m: Message): seq<Event>
    requires m.Message?
  {
    if m.role == ToolRole then [Result(m.toolCallId, FlatText(m.content))]
    else BlockEvents(m.role, BlocksOf(m), |BlocksOf(m)|)
  }

  function MessageEvents(m: Message): seq<Event> {
    if m.NotADict? then []
    else SpokenEvents(m) + CallEvents(m.toolCalls, |m.toolCalls|) + RestEvents(m)
  }

  /** What each message says. */
  function Parts(msgs: seq<Message>): (parts: seq<seq<Event>>)
    ensures |parts| == |msgs|
  {
    seq(|msgs|, i requires 0 <= i < |msgs| => MessageEvents(msgs[i]))
  }

  /** What the first n messages say. */
  function Events(msgs: seq<Message>, n: nat): seq<Event>
    requires n <= |msgs|
  {
    Joined(Parts(msgs), n)
  }

  // ---------------------------------------------------------------- from events to texts

  /** The call text an id stands for: that of its last call. */
  function Calls(events: seq<Event>, n: nat): map<string, string>
    requires n <= |events|
  {
    if n == 0 then map[]
    else
      var m, e := Calls(events, n - 1), events[n - 1];
      if e.Call? then m[e.id := e.call] else m
  }

  function Results(events: seq<Event>, n: nat): map<string, string>
    requires n <= |events|
  {
    if n == 0 then map[]
    else
      var m, e := Results(events, n - 1), events[n - 1];
      if e.Result? then m[e.id := e.text] else m
  }

  /** A missing or empty result is no evidence of failure. */
  predicate Failed(marker: string -> bool, result: string) {
    result != "" && marker(result)
  }

  /** What one event contributes, given all calls and results of the payload. */
  function Emit(marker: string -> bool, calls: map<string, string>, results: map<string, string>, e: Event)
    : seq<Emitted>
  {
    match e
    case Say(text) => if text != "" then [Narration(text)] else []
    case Call(id, _) =>
      if Lookup(calls, id) == "" || Failed(marker, Lookup(results, id)) then []
      else [Adjudicated(Lookup(calls, id))]
    case Result(id, _) =>
      if id !in calls && Lookup(results, id) != "" then [Narration(Lookup(results, id))] else []
  }

  /** What each event contributes. */
  function EmitSlots(marker: string -> bool, calls: map<string, string>, results: map<string, string>,
      events: seq<Event>): (slots: seq<seq<Emitted>>)
    ensures |slots| == |events|
  {
    seq(|events|, i requires 0 <= i < |events| => Emit(marker, calls, results, events[i]))
  }

  function EmitAll(marker: string -> bool, calls: map<string, string>, results: map<string, string>,
                   events: seq<Event>, n: nat): seq<Emitted>
    requires n <= |events|
  {
    Joined(EmitSlots(marker, calls, results, events), n)
  }

  function Resolved(marker: string -> bool, events: seq<Event>): seq<Emitted> {
    EmitAll(marker, Calls(events, |events|), Results(events, |events|), events, |events|)
  }

  // ---------------------------------------------------------------- the two passes

  /** Slots in document order, with the calls and results collected so far by id. */
  datatype Collected = Collected(events: seq<Event>, calls: map<string, string>, results: map<string, string>)

  predicate Consistent(c: Collected) {
    c.calls == Calls(c.events, |c.events|) && c.results == Results(c.events, |c.events|)
  }

  lemma {:induction false} PrefixMaps(a: seq<Event>, b: seq<Event>, n: nat)
    requires n <= |a| && a <= b
    ensures Calls(a, n) == Calls(b, n) && Results(a, n) == Results(b, n)
  {
    if n == 0 {
    } else {
      PrefixMaps(a, b, n - 1);
    }
  }

  method Note(c: Collected, e: Event) returns (c': Collected)
    requires Consistent(c)
    ensures Consistent(c') && c'.events == c.events + [e]
  {
    PrefixMaps(c.events, c.events + [e], |c.events|);
    match e {
      case Say(_) => c' := c.(events := c.events + [e]);
      case Call(id, call) => c' := c.(events := c.events + [e], calls := c.calls[id := call]);
      case Result(id, text) => c' := c.(events := c.events + [e], results := c.results[id := text]);
    }
  }

  method CollectCalls(c: Collected, toolCalls: seq<ToolCall>) returns (c': Collected)
    requires Consistent(c)
    ensures Consistent(c') && c'.events == c.events + CallEvents(toolCalls, |toolCalls|)
  {
    c' := c;
    for i := 0 to |toolCalls|
      invariant Consistent(c') && c'.events == c.events + CallEvents(toolCalls, i)
    {
      c' := Note(c', Call(toolCalls[i].id, Rendered(toolCalls[i].name, toolCalls[i].args)));
    }
  }

  method CollectBlock(c: Collected, role: Role, b: Block) returns (c': Collected)
    requires Consistent(c)
    ensures Consistent(c') && c'.events == c.events + BlockEvent(role, b)
  {
    c' := c;
    match b {
      case FunctionCall(id, name, args) => c' := Note(c, Call(id, Rendered(name, args)));
      case FunctionOutput(id, text) => c' := Note(c, Result(id, text));
      case ToolUse(id, name, input) =>
        if input.Some? {
          c' := Note(c, Call(id, Rendered(name, input.value)));
        }
      case ToolResult(id, text) => c' := Note(c, Result(id, text));
      case TextBlock(text) =>
        if Narrates(role) {
          c' := Note(c, Say(text));
        }
      case OtherBlock =>
    }
  }

  lemma Associative(a: seq<Event>, b: seq<Event>, c: seq<Event>)
    ensures (a + b) + c == a + (b + c)
  {
  }

  method CollectBlocks(c: Collected, role: Role, blocks: seq<Block>) returns (c': Collected)
    requires Consistent(c)
    ensures Consistent(c') && c'.events == c.events + BlockEvents(role, blocks, |blocks|)
  {
    c' := c;
    for i := 0 to |blocks|
      invariant Consistent(c') && c'.events == c.events + BlockEvents(role, blocks, i)
    {
      Associative(c.events, BlockEvents(role, blocks, i), BlockEvent(role, blocks[i]));
      c' := CollectBlock(c', role, blocks[i]);
    }
  }

  /** A message's own text, when the assistant says it. */
  method CollectSpoken(c: Collected, m: Message) returns (c': Collected)
    requires Consistent(c) && m.Message?
    ensures Consistent(c') && c'.events == c.events + SpokenEvents(m)
  {
    c' := c;
    if Speaks(m) {
      c' := Note(c, Say(m.content.text));
    }
  }

  /** What follows a message's text and calls: a tool message is a result, any other has blocks. */
  method CollectRest(c: Collected, m: Message) returns (c': Collected)
    requires Consistent(c) && m.Message?
    ensures Consistent(c') && c'.events == c.events + RestEvents(m)
  {
    if m.role == ToolRole {
      c' := Note(c, Result(m.toolCallId, FlatText(m.content)));
    } else {
      c' := CollectBlocks(c, m.role, BlocksOf(m));
    }
  }

  /** First pass over one message. */
  method CollectMessage(c: Collected, m: Message) returns (c': Collected)
    requires Consistent(c)
    ensures Consistent(c') && c'.events == c.events + MessageEvents(m)
  {
    if m.NotADict? {
      return c;
    }
    var c1 := CollectSpoken(c, m);
    var c2 := CollectCalls(c1, m.toolCalls);
    c' := CollectRest(c2, m);
    var s, t, u := SpokenEvents(m), CallEvents(m.toolCalls, |m.toolCalls|), RestEvents(m);
    Associative(c.events, s, t);
    Associative(c.events, s + t, u);
  }

  /** First pass: the slots of the whole payload. */
  method CollectAll(msgs: seq<Message>) returns (c: Collected)
    ensures Consistent(c) && c.events == Events(msgs, |msgs|)
  {
    c := Collected([], map[], map[]);
    for i := 0 to |msgs|
      invariant Consistent(c) && c.events == Events(msgs, i)
    {
      c := CollectMessage(c, msgs[i]);
    }
  }

  /** Second pass: each slot resolved against the tables. */
  method Resolve(marker: string -> bool, c: Collected) returns (resolved: seq<Emitted>)
    requires Consistent(c)
    ensures resolved == Resolved(marker, c.events)
  {
    resolved := [];
    for i := 0 to |c.events|
      invariant resolved == EmitAll(marker, c.calls, c.results, c.events, i)
    {
      resolved := resolved + Emit(marker, c.calls, c.results, c.events[i]);
    }
  }

  method IterToolTexts(marker: string -> bool, msgs: seq<Message>) returns (resolved: seq<Emitted>)
    ensures resolved == Resolved(marker, Events(msgs, |msgs|))
  {
    var c := CollectAll(msgs);
    resolved := Resolve(marker, c);
  }
}
