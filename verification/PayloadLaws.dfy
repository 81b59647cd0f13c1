/**
  What is handed on of a provider payload, message by message (distil/artifacts.py,
  `_iter_tool_texts`): which messages make calls, report results and narrate, and what of that reaches
  the operation extractor, with every text spelled out.
*/
module PayloadLaws {
  import opened Wrappers
  import opened ToolTexts
  import opened ToolTextLaws

  // ---------------------------------------------------------------- what a message carries

  /** The message, which is not a tool's, has the block; a message that is itself an item has no others. */
  predicate HasBlock(m: Message, b: Block) {
    m.Message? && m.role != ToolRole && m.item.None? && m.content.Blocks? && b in m.content.blocks
  }

  predicate IsItem(m: Message, item: Item) {
    m.Message? && m.role != ToolRole && m.item == Some(item)
  }

  /** The text of content that is a string, else what it reads as. */
  predicate Reads(c: Content, text: string) {
    match c
    case Text(t) => text == t
    case Blocks(_, flat) => text == flat
    case NoContent(flat) => text == flat
  }

  /** The message calls the tool under the id with the arguments. */
  predicate MakesCall(m: Message, id: string, name: string, args: string) {
    || (m.Message? && ToolCall(id, name, args) in m.toolCalls)
    || HasBlock(m, FunctionCall(id, name, args)) || HasBlock(m, ToolUse(id, name, Some(args)))
    || IsItem(m, CallItem(id, name, args)) || IsItem(m, UseItem(id, name, Some(args)))
  }

  /** The message reports the text as a result under the id. */
  predicate ReportsResult(m: Message, id: string, text: string) {
    || (m.Message? && m.role == ToolRole && m.toolCallId == id && Reads(m.content, text))
    || HasBlock(m, FunctionOutput(id, text)) || HasBlock(m, ToolResult(id, text))
    || IsItem(m, OutputItem(id, text)) || (IsItem(m, ResultItem(id)) && Reads(m.content, text))
  }

  /** The message narrates the text: as its content or in a text block, and not for a user, the system
      or a tool. */
  predicate NarratesText(m: Message, text: string) {
    && m.Message? && m.role != User && m.role != System && m.role != ToolRole
    && ((m.content == Text(text) && text != "") || HasBlock(m, TextBlock(text)))
  }

  /** The message carries a call of this text under the id. */
  ghost predicate CarriesCall(m: Message, id: string, x: string) {
    exists name, args :: MakesCall(m, id, name, args) && x == name + "(" + args + ")"
  }

  // ---------------------------------------------------------------- the events of a message

  ghost predicate CarriesEvent(m: Message, e: Event) {
    match e
    case Say(text) => NarratesText(m, text)
    case Call(id, x) => CarriesCall(m, id, x)
    case Result(id, text) => ReportsResult(m, id, text)
  }

  lemma {:induction false} CallEventIff(calls: seq<ToolCall>, n: nat, e: Event)
    requires n <= |calls|
    ensures e in CallEvents(calls, n) <==>
            exists i :: 0 <= i < n && e == Call(calls[i].id, calls[i].name + "(" + calls[i].args + ")")
  {
    if n == 0 {
    } else {
      CallEventIff(calls, n - 1, e);
    }
  }

  lemma {:induction false} BlockEventIff(role: Role, blocks: seq<Block>, n: nat, e: Event)
    requires n <= |blocks|
    ensures e in BlockEvents(role, blocks, n) <==> exists i :: 0 <= i < n && e in BlockEvent(role, blocks[i])
  {
    if n == 0 {
    } else {
      BlockEventIff(role, blocks, n - 1, e);
    }
  }

  /** The block, in a message of the role, carries the event. */
  ghost predicate BlockCarries(role: Role, b: Block, e: Event) {
    match e
    case Say(text) => b == TextBlock(text) && role != User && role != System
    case Call(id, x) => exists name, args :: CallBlock(b, id, name, args) && x == name + "(" + args + ")"
    case Result(id, text) => b == FunctionOutput(id, text) || b == ToolResult(id, text)
  }

  predicate CallBlock(b: Block, id: string, name: string, args: string) {
    b == FunctionCall(id, name, args) || b == ToolUse(id, name, Some(args))
  }

  lemma BlockCarriesIff(role: Role, b: Block, e: Event)
    ensures e in BlockEvent(role, b) <==> BlockCarries(role, b, e)
  {
    match b
    case FunctionCall(id, name, args) =>
      assert CallBlock(b, id, name, args);
    case ToolUse(id, name, input) =>
      if input.Some? {
        assert CallBlock(b, id, name, input.value);
      }
    case FunctionOutput(_, _) =>
    case ToolResult(_, _) =>
    case TextBlock(_) =>
    case OtherBlock =>
  }

  /** Some block of the message carries the event. */
  ghost predicate SomeBlockCarries(m: Message, e: Event) {
    m.Message? && m.role != ToolRole && exists b :: b in BlocksOf(m) && BlockCarries(m.role, b, e)
  }

  lemma RestEventIff(m: Message, e: Event)
    requires m.Message?
    ensures e in RestEvents(m) <==>
      SomeBlockCarries(m, e) || (m.role == ToolRole && e.Result? && e.id == m.toolCallId && Reads(m.content, e.text))
  {
    if m.role != ToolRole {
      var blocks := BlocksOf(m);
      BlockEventIff(m.role, blocks, |blocks|, e);
      forall i | 0 <= i < |blocks| ensures e in BlockEvent(m.role, blocks[i]) <==> BlockCarries(m.role, blocks[i], e) {
        BlockCarriesIff(m.role, blocks[i], e);
      }
    }
  }

  /** What each message says, calls and reports is exactly what it carries. */
  lemma MessageEventIff(m: Message, e: Event)
    ensures e in MessageEvents(m) <==> CarriesEvent(m, e)
  {
    if m.Message? {
      RestEventIff(m, e);
      CallEventIff(m.toolCalls, |m.toolCalls|, e);
      match e
      case Say(text) => SayEventIff(m, text);
      case Call(id, x) => CallCarried(m, id, x);
      case Result(id, text) => ResultCarried(m, id, text);
    }
  }

  lemma SayEventIff(m: Message, text: string)
    requires m.Message?
    ensures Say(text) in SpokenEvents(m) || SomeBlockCarries(m, Say(text)) <==> NarratesText(m, text)
  {
    if NarratesText(m, text) && HasBlock(m, TextBlock(text)) {
      assert TextBlock(text) in BlocksOf(m);
    }
  }

  lemma ResultCarried(m: Message, id: string, text: string)
    requires m.Message?
    ensures (|| SomeBlockCarries(m, Result(id, text))
             || (m.role == ToolRole && id == m.toolCallId && Reads(m.content, text)))
            <==> ReportsResult(m, id, text)
  {
    if m.role != ToolRole {
      if m.item.Some? {
        assert BlocksOf(m) == [BlockOfItem(m.item.value, m.content)];
        assert BlockOfItem(m.item.value, m.content) in BlocksOf(m);
      } else if m.content.Blocks? {
        assert BlocksOf(m) == m.content.blocks;
      }
    }
  }

  /** One of the calls beside the content has the id and the text. */
  predicate CallBeside(calls: seq<ToolCall>, id: string, x: string) {
    exists i :: 0 <= i < |calls| && calls[i].id == id && x == calls[i].name + "(" + calls[i].args + ")"
  }

  lemma CallCarried(m: Message, id: string, x: string)
    requires m.Message?
    ensures SomeBlockCarries(m, Call(id, x)) || CallBeside(m.toolCalls, id, x) <==> CarriesCall(m, id, x)
  {
    if SomeBlockCarries(m, Call(id, x)) {
      var b :| b in BlocksOf(m) && BlockCarries(m.role, b, Call(id, x));
      var name, args :| CallBlock(b, id, name, args) && x == name + "(" + args + ")";
      BlockMakesCall(m, b, id, name, args);
    }
    if CallBeside(m.toolCalls, id, x) {
      var i :| 0 <= i < |m.toolCalls| && m.toolCalls[i].id == id
        && x == m.toolCalls[i].name + "(" + m.toolCalls[i].args + ")";
      assert m.toolCalls[i] == ToolCall(id, m.toolCalls[i].name, m.toolCalls[i].args);
      assert MakesCall(m, id, m.toolCalls[i].name, m.toolCalls[i].args);
    }
    if CarriesCall(m, id, x) {
      var name, args :| MakesCall(m, id, name, args) && x == name + "(" + args + ")";
      if ToolCall(id, name, args) in m.toolCalls {
        var i :| 0 <= i < |m.toolCalls| && m.toolCalls[i] == ToolCall(id, name, args);
      } else {
        MadeInBlock(m, id, name, args);
      }
    }
  }

  lemma BlockMakesCall(m: Message, b: Block, id: string, name: string, args: string)
    requires m.Message? && m.role != ToolRole && b in BlocksOf(m) && CallBlock(b, id, name, args)
    ensures MakesCall(m, id, name, args)
  {
  }

  lemma MadeInBlock(m: Message, id: string, name: string, args: string)
    requires m.Message? && MakesCall(m, id, name, args) && ToolCall(id, name, args) !in m.toolCalls
    ensures SomeBlockCarries(m, Call(id, name + "(" + args + ")"))
  {
    if m.item.Some? {
      var b := BlockOfItem(m.item.value, m.content);
      assert b in BlocksOf(m) && CallBlock(b, id, name, args);
    } else {
      var b := if FunctionCall(id, name, args) in m.content.blocks then FunctionCall(id, name, args)
               else ToolUse(id, name, Some(args));
      assert b in BlocksOf(m) && CallBlock(b, id, name, args);
    }
  }

  lemma PayloadEventIff(msgs: seq<Message>, e: Event)
    ensures e in Events(msgs, |msgs|) <==> exists i :: 0 <= i < |msgs| && CarriesEvent(msgs[i], e)
  {
    JoinedHas(Parts(msgs), |msgs|, e);
    forall i | 0 <= i < |msgs| ensures e in Parts(msgs)[i] <==> CarriesEvent(msgs[i], e) {
      MessageEventIff(msgs[i], e);
    }
  }

  // ---------------------------------------------------------------- what is handed on

  /** Some message of the payload carries a call of the text under the id. */
  ghost predicate Called(msgs: seq<Message>, id: string, x: string) {
    exists i :: 0 <= i < |msgs| && CarriesCall(msgs[i], id, x)
  }

  predicate Reported(msgs: seq<Message>, id: string, text: string) {
    exists i :: 0 <= i < |msgs| && ReportsResult(msgs[i], id, text)
  }

  predicate NarratedIn(msgs: seq<Message>, text: string) {
    exists i :: 0 <= i < |msgs| && NarratesText(msgs[i], text)
  }

  lemma EventsAre(msgs: seq<Message>, id: string, x: string)
    ensures Call(id, x) in Events(msgs, |msgs|) <==> Called(msgs, id, x)
    ensures Result(id, x) in Events(msgs, |msgs|) <==> Reported(msgs, id, x)
    ensures Say(x) in Events(msgs, |msgs|) <==> NarratedIn(msgs, x)
  {
    PayloadEventIff(msgs, Call(id, x));
    PayloadEventIff(msgs, Result(id, x));
    PayloadEventIff(msgs, Say(x));
  }

  /** An id stands for one call text, and for one result text. */
  ghost predicate OneEach(msgs: seq<Message>) {
    && (forall id, x, y :: Called(msgs, id, x) && Called(msgs, id, y) ==> x == y)
    && (forall id, x, y :: Reported(msgs, id, x) && Reported(msgs, id, y) ==> x == y)
  }

  /** No result reported under the id shows a failure. */
  ghost predicate Unfailed(marker: string -> bool, msgs: seq<Message>, id: string) {
    forall text :: Reported(msgs, id, text) ==> text == "" || !marker(text)
  }

  /** What the tables of a payload hold, by id. */
  lemma TablesAre(msgs: seq<Message>, id: string)
    ensures var events := Events(msgs, |msgs|);
      var calls, results := Calls(events, |events|), Results(events, |events|);
      && (id in calls ==> Called(msgs, id, calls[id]))
      && (id in results ==> Reported(msgs, id, results[id]))
      && (forall x :: Called(msgs, id, x) ==> id in calls)
      && (forall x :: Reported(msgs, id, x) ==> id in results)
  {
    var events := Events(msgs, |msgs|);
    var n := |events|;
    assert events[..n] == events;
    ResultsAre(events, n, id);
    if id in Calls(events, n) {
      EventsAre(msgs, id, Calls(events, n)[id]);
    }
    if id in Results(events, n) {
      EventsAre(msgs, id, Results(events, n)[id]);
    }
    forall x | Called(msgs, id, x) ensures id in Calls(events, n) {
      EventsAre(msgs, id, x);
      var i :| 0 <= i < n && events[i] == Call(id, x);
    }
    forall x | Reported(msgs, id, x) ensures id in Results(events, n) {
      EventsAre(msgs, id, x);
      ResultHasEntry(events, n, id, x);
    }
  }

  lemma {:induction false} ResultHasEntry(events: seq<Event>, n: nat, id: string, x: string)
    requires n <= |events| && Result(id, x) in events[..n]
    ensures id in Results(events, n)
  {
    assert events[..n] == events[..n - 1] + [events[n - 1]];
    if events[n - 1] != Result(id, x) {
      ResultHasEntry(events, n - 1, id, x);
    }
  }

  /** No result is reported under the id, or some result that shows no failure. */
  ghost predicate SomeUnfailed(marker: string -> bool, msgs: seq<Message>, id: string) {
    || (forall text :: !Reported(msgs, id, text))
    || (exists text :: Reported(msgs, id, text) && (text == "" || !marker(text)))
  }

  /** A payload hands on, as calls that succeeded, only what some message calls: the name followed by the
      arguments in parens, under an id with no failed result or with another one besides. */
  lemma HandedOnIsCalled(marker: string -> bool, msgs: seq<Message>, x: string)
    requires Adjudicated(x) in Resolved(marker, Events(msgs, |msgs|))
    ensures exists id :: Called(msgs, id, x) && SomeUnfailed(marker, msgs, id)
  {
    var events := Events(msgs, |msgs|);
    var n := |events|;
    EmittedFrom(marker, Calls(events, n), Results(events, n), events, Adjudicated(x));
    var i :| 0 <= i < n && Adjudicated(x) in Emit(marker, Calls(events, n), Results(events, n), events[i]);
    TablesAre(msgs, events[i].id);
  }

  /** For every payload in which an id stands for one call and one result: a call is handed on exactly
      when some message makes it, and no result reported under its id shows a failure. */
  lemma HandedOnIff(marker: string -> bool, msgs: seq<Message>, x: string)
    requires OneEach(msgs)
    ensures Adjudicated(x) in Resolved(marker, Events(msgs, |msgs|)) <==>
            exists id :: Called(msgs, id, x) && Unfailed(marker, msgs, id)
  {
    if Adjudicated(x) in Resolved(marker, Events(msgs, |msgs|)) {
      HandedOnIsCalled(marker, msgs, x);
    }
    if id :| Called(msgs, id, x) && Unfailed(marker, msgs, id) {
      UnfailedIsHandedOn(marker, msgs, id, x);
    }
  }

  lemma UnfailedIsHandedOn(marker: string -> bool, msgs: seq<Message>, id: string, x: string)
    requires OneEach(msgs) && Called(msgs, id, x) && Unfailed(marker, msgs, id)
    ensures Adjudicated(x) in Resolved(marker, Events(msgs, |msgs|))
  {
    var events := Events(msgs, |msgs|);
    var n := |events|;
    EventsAre(msgs, id, x);
    TablesAre(msgs, id);
    PayloadCallsAreNotEmpty(msgs);
    var i :| 0 <= i < n && events[i] == Call(id, x);
    EmittedFrom(marker, Calls(events, n), Results(events, n), events, Adjudicated(x));
    assert Adjudicated(x) in Emit(marker, Calls(events, n), Results(events, n), events[i]);
  }

  /** The text is reported under an id that no message calls. */
  ghost predicate ReportedUncalled(msgs: seq<Message>, text: string) {
    exists id :: Reported(msgs, id, text) && !IsCalled(msgs, id)
  }

  ghost predicate IsCalled(msgs: seq<Message>, id: string) {
    exists x :: Called(msgs, id, x)
  }

  lemma NarrationComesFrom(marker: string -> bool, msgs: seq<Message>, text: string)
    requires Narration(text) in Resolved(marker, Events(msgs, |msgs|))
    ensures text != "" && (NarratedIn(msgs, text) || ReportedUncalled(msgs, text))
  {
    var events := Events(msgs, |msgs|);
    var n := |events|;
    EmittedFrom(marker, Calls(events, n), Results(events, n), events, Narration(text));
    var i :| 0 <= i < n && Narration(text) in Emit(marker, Calls(events, n), Results(events, n), events[i]);
    if events[i].Say? {
      EventsAre(msgs, "", text);
    } else {
      TablesAre(msgs, events[i].id);
    }
  }

  lemma NarratedIsHandedOn(marker: string -> bool, msgs: seq<Message>, text: string)
    requires text != "" && NarratedIn(msgs, text)
    ensures Narration(text) in Resolved(marker, Events(msgs, |msgs|))
  {
    var events := Events(msgs, |msgs|);
    var n := |events|;
    EventsAre(msgs, "", text);
    var i :| 0 <= i < n && events[i] == Say(text);
    EmittedFrom(marker, Calls(events, n), Results(events, n), events, Narration(text));
    assert Narration(text) in Emit(marker, Calls(events, n), Results(events, n), events[i]);
  }

  lemma UncalledIsHandedOn(marker: string -> bool, msgs: seq<Message>, id: string, text: string)
    requires text != "" && Reported(msgs, id, text) && !IsCalled(msgs, id)
    requires forall y :: Reported(msgs, id, y) ==> y == text
    ensures Narration(text) in Resolved(marker, Events(msgs, |msgs|))
  {
    var events := Events(msgs, |msgs|);
    var n := |events|;
    EventsAre(msgs, id, text);
    TablesAre(msgs, id);
    var i :| 0 <= i < n && events[i] == Result(id, text);
    EmittedFrom(marker, Calls(events, n), Results(events, n), events, Narration(text));
    assert Narration(text) in Emit(marker, Calls(events, n), Results(events, n), events[i]);
  }

  /** For every payload in which an id stands for one result: a text is handed on as narration exactly
      when it is not empty and some message narrates it, or reports it under an id that no message calls. */
  lemma NarrationIff(marker: string -> bool, msgs: seq<Message>, text: string)
    requires forall id, x, y :: Reported(msgs, id, x) && Reported(msgs, id, y) ==> x == y
    ensures Narration(text) in Resolved(marker, Events(msgs, |msgs|)) <==>
            text != "" && (NarratedIn(msgs, text) || ReportedUncalled(msgs, text))
  {
    if Narration(text) in Resolved(marker, Events(msgs, |msgs|)) {
      NarrationComesFrom(marker, msgs, text);
    }
    if text != "" && NarratedIn(msgs, text) {
      NarratedIsHandedOn(marker, msgs, text);
    }
    if text != "" && ReportedUncalled(msgs, text) {
      var id :| Reported(msgs, id, text) && !IsCalled(msgs, id);
      UncalledIsHandedOn(marker, msgs, id, text);
    }
  }

  // ---------------------------------------------------------------- document order

  /** What a message adds stands after everything before it. */
  lemma EventsGrow(msgs: seq<Message>, n: nat)
    requires n < |msgs|
    ensures Events(msgs, 0) == []
    ensures Events(msgs, n + 1) == Events(msgs, n) + MessageEvents(msgs[n])
  {
    assert Parts(msgs)[n] == MessageEvents(msgs[n]);
  }

  /** Within a message: what it says, the calls beside its content, then its blocks, each in order. */
  lemma MessageInOrder(text: string, x: ToolCall, y: ToolCall)
    requires text != ""
    ensures MessageEvents(Message(Assistant, Text(text), [x, y], "", None)) ==
      [Say(text), Call(x.id, x.name + "(" + x.args + ")"), Call(y.id, y.name + "(" + y.args + ")")]
  {
    var m := Message(Assistant, Text(text), [x, y], "", None);
    var first, second := Call(x.id, x.name + "(" + x.args + ")"), Call(y.id, y.name + "(" + y.args + ")");
    assert CallEvents([x, y], 0) == [];
    assert CallEvents([x, y], 1) == [first];
    assert CallEvents([x, y], 2) == [first, second];
    assert RestEvents(m) == [];
  }

  lemma BlocksInOrder(text: string, id: string, name: string, args: string, result: string)
    ensures var blocks := [TextBlock(text), ToolUse(id, name, Some(args)), ToolResult(id, result)];
      MessageEvents(Message(Assistant, Blocks(blocks, ""), [], "", None)) ==
      [Say(text), Call(id, name + "(" + args + ")"), Result(id, result)]
  {
    var blocks := [TextBlock(text), ToolUse(id, name, Some(args)), ToolResult(id, result)];
    assert BlockEvents(Assistant, blocks, 0) == [];
    assert BlockEvents(Assistant, blocks, 1) == [Say(text)];
    assert BlockEvents(Assistant, blocks, 2) == [Say(text), Call(id, name + "(" + args + ")")];
    var m := Message(Assistant, Blocks(blocks, ""), [], "", None);
    assert SpokenEvents(m) == [] && CallEvents(m.toolCalls, 0) == [] && BlocksOf(m) == blocks;
  }
}
