/**
  What the joined tool texts promise (distil/artifacts.py, `_iter_tool_texts`): results decide success
  only, narration is what was said, and every call that succeeded stands at its own slot.
*/
module ToolTextLaws {
  import opened Wrappers
  import opened ToolTexts

  // ---------------------------------------------------------------- payloads as joined parts

  lemma {:induction false} JoinedHas<T>(parts: seq<seq<T>>, n: nat, x: T)
    requires n <= |parts|
    ensures x in Joined(parts, n) <==> exists i :: 0 <= i < n && x in parts[i]
  {
    if n == 0 {
    } else {
      JoinedHas(parts, n - 1, x);
    }
  }

  /** Pieces of the same lengths give the same whole exactly when they are the same pieces. */
  lemma {:induction false} JoinedIff<T>(parts: seq<seq<T>>, parts': seq<seq<T>>, n: nat)
    requires n <= |parts| && n <= |parts'| && forall i :: 0 <= i < n ==> |parts[i]| == |parts'[i]|
    ensures |Joined(parts, n)| == |Joined(parts', n)|
    ensures Joined(parts, n) == Joined(parts', n) <==> forall i :: 0 <= i < n ==> parts[i] == parts'[i]
  {
    if n == 0 {
    } else {
      JoinedIff(parts, parts', n - 1);
      AppendEqual(Joined(parts, n - 1), Joined(parts', n - 1), parts[n - 1], parts'[n - 1]);
    }
  }

  lemma AppendEqual<T>(a: seq<T>, b: seq<T>, x: seq<T>, y: seq<T>)
    requires |a| == |b|
    ensures a + x == b + y <==> a == b && x == y
  {
    if a + x == b + y {
      assert a == (a + x)[..|a|] && b == (b + y)[..|b|];
      assert x == (a + x)[|a|..] && y == (b + y)[|b|..];
    }
  }

  // ---------------------------------------------------------------- results decide success only

  /** The two payloads differ only in result texts of known calls, with the same verdicts. */
  predicate SameButResults(marker: string -> bool, a: seq<Event>, b: seq<Event>) {
    |a| == |b| &&
    forall i :: 0 <= i < |a| ==>
      a[i] == b[i] ||
      (a[i].Result? && b[i].Result? && a[i].id == b[i].id && a[i].id in Calls(a, |a|)
       && (Failed(marker, a[i].text) <==> Failed(marker, b[i].text)))
  }

  lemma {:induction false} SameCalls(marker: string -> bool, a: seq<Event>, b: seq<Event>, n: nat)
    requires SameButResults(marker, a, b) && n <= |a|
    ensures Calls(a, n) == Calls(b, n)
  {
    if n == 0 {
    } else {
      SameCalls(marker, a, b, n - 1);
    }
  }

  lemma {:induction false} SameVerdicts(marker: string -> bool, a: seq<Event>, b: seq<Event>, n: nat, id: string)
    requires SameButResults(marker, a, b) && n <= |a|
    ensures id in Results(a, n) <==> id in Results(b, n)
    ensures id in Results(a, n) && id !in Calls(a, |a|) ==> Results(a, n)[id] == Results(b, n)[id]
    ensures Failed(marker, Lookup(Results(a, n), id)) <==> Failed(marker, Lookup(Results(b, n), id))
  {
    if n == 0 {
    } else {
      SameVerdicts(marker, a, b, n - 1, id);
    }
  }

  lemma SameEmissions(marker: string -> bool, a: seq<Event>, b: seq<Event>)
    requires SameButResults(marker, a, b)
    ensures EmitSlots(marker, Calls(a, |a|), Results(a, |a|), a) == EmitSlots(marker, Calls(b, |b|), Results(b, |b|), b)
  {
    SameCalls(marker, a, b, |a|);
    forall i | 0 <= i < |a|
      ensures Emit(marker, Calls(a, |a|), Results(a, |a|), a[i]) == Emit(marker, Calls(b, |b|), Results(b, |b|), b[i])
    {
      if !a[i].Say? {
        SameVerdicts(marker, a, b, |a|, a[i].id);
      }
    }
  }

  /** Replacing results of known calls by others with the same failure verdict changes nothing. */
  lemma ResultsDecideSuccessOnly(marker: string -> bool, a: seq<Event>, b: seq<Event>)
    requires SameButResults(marker, a, b)
    ensures Resolved(marker, a) == Resolved(marker, b)
  {
    SameEmissions(marker, a, b);
  }

  // ---------------------------------------------------------------- the same for payloads

  /** The ids of the calls a payload contains. */
  function Known(msgs: seq<Message>): set<string> {
    Calls(Events(msgs, |msgs|), |Events(msgs, |msgs|)|).Keys
  }

  /** The two texts report on a known call, with the same verdict. */
  predicate SameReport(marker: string -> bool, known: set<string>, id: string, a: string, b: string) {
    a == b || (id in known && (Failed(marker, a) <==> Failed(marker, b)))
  }

  predicate SameBlock(marker: string -> bool, known: set<string>, a: Block, b: Block) {
    || a == b
    || (a.FunctionOutput? && b.FunctionOutput? && a.id == b.id && SameReport(marker, known, a.id, a.text, b.text))
    || (a.ToolResult? && b.ToolResult? && a.id == b.id && SameReport(marker, known, a.id, a.text, b.text))
  }

  predicate SameBlocks(marker: string -> bool, known: set<string>, a: seq<Block>, b: seq<Block>) {
    |a| == |b| && forall i :: 0 <= i < |a| ==> SameBlock(marker, known, a[i], b[i])
  }

  /** Equal contents, or lists of blocks that differ in the texts of results only. */
  predicate SameContent(marker: string -> bool, known: set<string>, a: Content, b: Content) {
    a == b || (a.Blocks? && b.Blocks? && SameBlocks(marker, known, a.blocks, b.blocks))
  }

  /** The message is a flat result item. */
  predicate FlatResult(m: Message) {
    m.Message? && m.role != ToolRole && m.item.Some? && m.item.value.ResultItem?
  }

  /** The message is a flat output item, whose result is not its content. */
  predicate FlatOutput(m: Message) {
    m.Message? && m.role != ToolRole && m.item.Some? && m.item.value.OutputItem?
  }

  /** Two messages that differ only in the texts of results of known calls, with the same verdicts.  A
      tool message or a flat result item carries its result in its content, a flat output item in a
      field of its own, and any other message in its blocks. */
  predicate SameMessage(marker: string -> bool, known: set<string>, a: Message, b: Message) {
    a == b || (a.Message? && b.Message? && SameEnvelope(a, b) && SameResults(marker, known, a, b))
  }

  predicate SameEnvelope(a: Message, b: Message)
    requires a.Message? && b.Message?
  {
    && a.role == b.role && a.toolCalls == b.toolCalls && a.toolCallId == b.toolCallId
    && (a.item == b.item || (FlatOutput(a) && FlatOutput(b) && a.item.value.id == b.item.value.id))
  }

  predicate SameResults(marker: string -> bool, known: set<string>, a: Message, b: Message)
    requires a.Message? && b.Message? && SameEnvelope(a, b)
  {
    if a.role == ToolRole then SameReport(marker, known, a.toolCallId, FlatText(a.content), FlatText(b.content))
    else if FlatResult(a) then SameReport(marker, known, a.item.value.id, FlatText(a.content), FlatText(b.content))
    else if FlatOutput(a) then
      a.content == b.content && SameReport(marker, known, a.item.value.id, a.item.value.text, b.item.value.text)
    else if a.item.Some? then a.content == b.content
    else SameContent(marker, known, a.content, b.content)
  }

  /** Two payloads that differ only in results of calls they contain, with the same verdicts. */
  predicate SamePayload(marker: string -> bool, a: seq<Message>, b: seq<Message>) {
    |a| == |b| && forall i :: 0 <= i < |a| ==> SameMessage(marker, Known(a), a[i], b[i])
  }

  /** What a flat result item says besides being a result: its string content, which the first pass
      takes for narration before it looks at the item's type. */
  function Echo(m: Message): seq<Emitted> {
    if FlatResult(m) && Speaks(m) then [Narration(m.content.text)] else []
  }

  /** The message without its echo: the same result, said by nobody. */
  function Quiet(m: Message): Message {
    if FlatResult(m) && Speaks(m) then m.(content := NoContent(m.content.text)) else m
  }

  function QuietAll(msgs: seq<Message>): (quiet: seq<Message>)
    ensures |quiet| == |msgs|
  {
    seq(|msgs|, i requires 0 <= i < |msgs| => Quiet(msgs[i]))
  }

  predicate SameEvent(marker: string -> bool, known: set<string>, a: Event, b: Event) {
    a == b || (a.Result? && b.Result? && a.id == b.id && SameReport(marker, known, a.id, a.text, b.text))
  }

  predicate SameEvents(marker: string -> bool, known: set<string>, a: seq<Event>, b: seq<Event>) {
    |a| == |b| && forall i :: 0 <= i < |a| ==> SameEvent(marker, known, a[i], b[i])
  }

  lemma SameSum(marker: string -> bool, known: set<string>, a: seq<Event>, b: seq<Event>, x: seq<Event>, y: seq<Event>)
    requires SameEvents(marker, known, a, b) && SameEvents(marker, known, x, y)
    ensures SameEvents(marker, known, a + x, b + y)
  {
  }

  lemma {:induction false} SameBlockEvents(marker: string -> bool, known: set<string>, role: Role,
                                           a: seq<Block>, b: seq<Block>, n: nat)
    requires n <= |a| && SameBlocks(marker, known, a, b)
    ensures SameEvents(marker, known, BlockEvents(role, a, n), BlockEvents(role, b, n))
  {
    if n == 0 {
    } else {
      SameBlockEvents(marker, known, role, a, b, n - 1);
      assert SameBlock(marker, known, a[n - 1], b[n - 1]);
      SameSum(marker, known, BlockEvents(role, a, n - 1), BlockEvents(role, b, n - 1),
              BlockEvent(role, a[n - 1]), BlockEvent(role, b[n - 1]));
    }
  }

  /** Without echoes, messages that differ in results only say the same and hold the same blocks. */
  lemma QuietBlocks(marker: string -> bool, known: set<string>, a: Message, b: Message)
    requires SameMessage(marker, known, a, b) && a.Message? && b.Message? && a.role != ToolRole
    ensures SpokenEvents(Quiet(a)) == SpokenEvents(Quiet(b))
    ensures SameBlocks(marker, known, BlocksOf(Quiet(a)), BlocksOf(Quiet(b)))
  {
  }

  lemma QuietMessageEvents(marker: string -> bool, known: set<string>, a: Message, b: Message)
    requires SameMessage(marker, known, a, b)
    ensures SameEvents(marker, known, MessageEvents(Quiet(a)), MessageEvents(Quiet(b)))
  {
    if a.Message? && b.Message? && a != b {
      var x, y := Quiet(a), Quiet(b);
      if a.role != ToolRole {
        QuietBlocks(marker, known, a, b);
        SameBlockEvents(marker, known, a.role, BlocksOf(x), BlocksOf(y), |BlocksOf(x)|);
      }
      var said := SpokenEvents(x) + CallEvents(a.toolCalls, |a.toolCalls|);
      SameSum(marker, known, said, said, RestEvents(x), RestEvents(y));
    }
  }

  lemma {:induction false} SameJoined(marker: string -> bool, known: set<string>, a: seq<seq<Event>>,
                                      b: seq<seq<Event>>, n: nat)
    requires n <= |a| == |b| && forall i :: 0 <= i < n ==> SameEvents(marker, known, a[i], b[i])
    ensures SameEvents(marker, known, Joined(a, n), Joined(b, n))
  {
    if n == 0 {
    } else {
      SameJoined(marker, known, a, b, n - 1);
      SameSum(marker, known, Joined(a, n - 1), Joined(b, n - 1), a[n - 1], b[n - 1]);
    }
  }

  lemma QuietPayloadEvents(marker: string -> bool, a: seq<Message>, b: seq<Message>)
    requires SamePayload(marker, a, b)
    ensures SameEvents(marker, Known(a), Events(QuietAll(a), |a|), Events(QuietAll(b), |b|))
  {
    var x, y := Parts(QuietAll(a)), Parts(QuietAll(b));
    forall i | 0 <= i < |a| ensures SameEvents(marker, Known(a), x[i], y[i]) {
      QuietMessageEvents(marker, Known(a), a[i], b[i]);
    }
    SameJoined(marker, Known(a), x, y, |a|);
  }

  // ---------------------------------------------------------------- echoes and the tables

  lemma {:induction false} TablesOfSum(a: seq<Event>, b: seq<Event>, n: nat)
    requires n <= |b|
    ensures Calls(a + b, |a| + n) == Calls(a, |a|) + Calls(b, n)
    ensures Results(a + b, |a| + n) == Results(a, |a|) + Results(b, n)
  {
    if n == 0 {
      PrefixMaps(a, a + b, |a|);
    } else {
      TablesOfSum(a, b, n - 1);
      assert (a + b)[|a| + n - 1] == b[n - 1];
    }
  }

  lemma SayLeavesNoTrace(text: string, rest: seq<Event>)
    ensures SameTraces([Say(text)] + rest, rest)
  {
    var said: seq<Event> := [Say(text)];
    assert Calls(said, 0) == map[] && Calls(said, 1) == map[];
    assert Results(said, 0) == map[] && Results(said, 1) == map[];
    TablesOfSum(said, rest, |rest|);
  }

  /** An echo leaves no trace in the tables. */
  lemma QuietMessageTables(m: Message)
    ensures SameTraces(MessageEvents(m), MessageEvents(Quiet(m)))
  {
    if FlatResult(m) && Speaks(m) {
      QuietIsRest(m);
      SayLeavesNoTrace(m.content.text, MessageEvents(Quiet(m)));
    }
  }

  /** A speaking flat result says its text and is then like its quiet form. */
  lemma QuietIsRest(m: Message)
    requires FlatResult(m) && Speaks(m)
    ensures MessageEvents(m) == [Say(m.content.text)] + MessageEvents(Quiet(m))
  {
    var calls, rest := CallEvents(m.toolCalls, |m.toolCalls|), RestEvents(m);
    var said, none: seq<Event> := [Say(m.content.text)], [];
    assert BlocksOf(Quiet(m)) == BlocksOf(m);
    assert none + calls + rest == calls + rest;
    assert said + calls + rest == said + (calls + rest);
  }

  predicate SameTraces(a: seq<Event>, b: seq<Event>) {
    Calls(a, |a|) == Calls(b, |b|) && Results(a, |a|) == Results(b, |b|)
  }

  lemma SameTracesSum(a: seq<Event>, b: seq<Event>, x: seq<Event>, y: seq<Event>)
    requires SameTraces(a, b) && SameTraces(x, y)
    ensures SameTraces(a + x, b + y)
  {
    TablesOfSum(a, x, |x|);
    TablesOfSum(b, y, |y|);
  }

  lemma {:induction false} JoinedTables(a: seq<seq<Event>>, b: seq<seq<Event>>, n: nat)
    requires n <= |a| == |b| && forall i :: 0 <= i < n ==> SameTraces(a[i], b[i])
    ensures SameTraces(Joined(a, n), Joined(b, n))
  {
    if n == 0 {
    } else {
      JoinedTables(a, b, n - 1);
      SameTracesSum(Joined(a, n - 1), Joined(b, n - 1), a[n - 1], b[n - 1]);
    }
  }

  lemma QuietTables(msgs: seq<Message>)
    ensures SameTraces(Events(msgs, |msgs|), Events(QuietAll(msgs), |msgs|))
  {
    var x, y := Parts(msgs), Parts(QuietAll(msgs));
    forall i | 0 <= i < |msgs| ensures SameTraces(x[i], y[i]) {
      QuietMessageTables(msgs[i]);
    }
    JoinedTables(x, y, |msgs|);
  }

  // ---------------------------------------------------------------- emission, message by message

  /** Tables that judge every call alike and hold the same texts for ids without calls. */
  ghost predicate SameTables(marker: string -> bool, calls: map<string, string>, calls': map<string, string>,
                             results: map<string, string>, results': map<string, string>) {
    calls == calls' && forall id ::
      && (Failed(marker, Lookup(results, id)) <==> Failed(marker, Lookup(results', id)))
      && (id !in calls ==> Lookup(results, id) == Lookup(results', id))
  }

  lemma SegmentEmits(marker: string -> bool, known: set<string>,
                     calls: map<string, string>, calls': map<string, string>,
                     results: map<string, string>, results': map<string, string>, a: seq<Event>, b: seq<Event>)
    requires SameTables(marker, calls, calls', results, results') && SameEvents(marker, known, a, b)
    ensures EmitSlots(marker, calls, results, a) == EmitSlots(marker, calls', results', b)
  {
    forall i | 0 <= i < |a| ensures Emit(marker, calls, results, a[i]) == Emit(marker, calls', results', b[i]) {
      assert SameEvent(marker, known, a[i], b[i]);
    }
  }

  function EmitMessage(marker: string -> bool, calls: map<string, string>, results: map<string, string>, m: Message)
    : seq<Emitted>
  {
    EmitAll(marker, calls, results, MessageEvents(m), |MessageEvents(m)|)
  }

  lemma {:induction false} JoinedOfSum<T>(a: seq<seq<T>>, b: seq<seq<T>>, ab: seq<seq<T>>, n: nat)
    requires n <= |b| && ab == a + b
    ensures Joined(ab, |a| + n) == Joined(a, |a|) + Joined(b, n)
  {
    if n == 0 {
      JoinedOfPrefix(a, ab, |a|);
    } else {
      JoinedOfSum(a, b, ab, n - 1);
      JoinedOneMore(ab, |a| + n - 1, Joined(a, |a|), Joined(b, n - 1), b[n - 1]);
    }
  }

  lemma JoinedOneMore<T>(parts: seq<seq<T>>, n: nat, x: seq<T>, y: seq<T>, z: seq<T>)
    requires n < |parts| && Joined(parts, n) == x + y && parts[n] == z
    ensures Joined(parts, n + 1) == x + (y + z)
  {
    assert (x + y) + z == x + (y + z);
  }

  lemma {:induction false} JoinedOfPrefix<T>(a: seq<seq<T>>, b: seq<seq<T>>, n: nat)
    requires n <= |a| && a <= b
    ensures Joined(a, n) == Joined(b, n)
  {
    if n == 0 {
    } else {
      JoinedOfPrefix(a, b, n - 1);
    }
  }

  lemma EmitAllOfSum(marker: string -> bool, calls: map<string, string>, results: map<string, string>,
                     a: seq<Event>, b: seq<Event>)
    ensures EmitAll(marker, calls, results, a + b, |a + b|)
      == EmitAll(marker, calls, results, a, |a|) + EmitAll(marker, calls, results, b, |b|)
  {
    var x, y := EmitSlots(marker, calls, results, a), EmitSlots(marker, calls, results, b);
    var xy := EmitSlots(marker, calls, results, a + b);
    assert xy == x + y;
    JoinedOfSum(x, y, xy, |b|);
  }

  /** A message emits its echo and then what its quiet form emits. */
  lemma EchoFirst(marker: string -> bool, calls: map<string, string>, results: map<string, string>, m: Message)
    ensures EmitMessage(marker, calls, results, m) == Echo(m) + EmitMessage(marker, calls, results, Quiet(m))
  {
    if FlatResult(m) && Speaks(m) {
      var said: seq<Event> := [Say(m.content.text)];
      var quiet := MessageEvents(Quiet(m));
      QuietIsRest(m);
      EmitAllOfSum(marker, calls, results, said, quiet);
      assert EmitAll(marker, calls, results, said, 0) == [];
      assert EmitAll(marker, calls, results, said, 1) == [Narration(m.content.text)];
    }
  }

  /** Each x followed by its y. */
  function Interleaved<T>(xs: seq<seq<T>>, ys: seq<seq<T>>, n: nat): seq<T>
    requires n <= |xs| && n <= |ys|
  {
    if n == 0 then [] else Interleaved(xs, ys, n - 1) + (xs[n - 1] + ys[n - 1])
  }

  /** Between the same rests, shorter pieces give the same whole exactly when they are the same pieces. */
  lemma {:induction false} InterleavedIff<T>(xs: seq<seq<T>>, xs': seq<seq<T>>, ys: seq<seq<T>>, n: nat)
    requires n <= |xs| && n <= |xs'| && n <= |ys| && forall i :: 0 <= i < n ==> |xs[i]| <= |xs'[i]|
    ensures |Interleaved(xs, ys, n)| <= |Interleaved(xs', ys, n)|
    ensures Interleaved(xs, ys, n) == Interleaved(xs', ys, n) <==> forall i :: 0 <= i < n ==> xs[i] == xs'[i]
  {
    if n == 0 {
    } else {
      InterleavedIff(xs, xs', ys, n - 1);
      InterleavedStep(Interleaved(xs, ys, n - 1), Interleaved(xs', ys, n - 1), xs[n - 1], xs'[n - 1], ys[n - 1]);
    }
  }

  lemma InterleavedStep<T>(a: seq<T>, b: seq<T>, x: seq<T>, y: seq<T>, z: seq<T>)
    requires |a| <= |b| && |x| <= |y|
    ensures a + (x + z) == b + (y + z) <==> a == b && x == y
  {
    if a + (x + z) == b + (y + z) {
      assert |a| + |x| == |b| + |y|;
      AppendEqual(a, b, x + z, y + z);
      AppendEqual(x, y, z, z);
    }
  }

  function Echoes(msgs: seq<Message>): (echoes: seq<seq<Emitted>>)
    ensures |echoes| == |msgs|
  {
    seq(|msgs|, i requires 0 <= i < |msgs| => Echo(msgs[i]))
  }

  /** What the quiet forms of a payload's messages emit. */
  function Rests(marker: string -> bool, calls: map<string, string>, results: map<string, string>, msgs: seq<Message>)
    : (rests: seq<seq<Emitted>>)
    ensures |rests| == |msgs|
  {
    seq(|msgs|, i requires 0 <= i < |msgs| => EmitMessage(marker, calls, results, Quiet(msgs[i])))
  }

  lemma {:induction false} JoinedEmits(marker: string -> bool, calls: map<string, string>, results: map<string, string>,
                                       parts: seq<seq<Event>>, zs: seq<seq<Emitted>>, n: nat)
    requires n <= |parts| == |zs|
    requires forall i :: 0 <= i < n ==> EmitAll(marker, calls, results, parts[i], |parts[i]|) == zs[i]
    ensures EmitAll(marker, calls, results, Joined(parts, n), |Joined(parts, n)|) == Joined(zs, n)
  {
    if n == 0 {
    } else {
      JoinedEmits(marker, calls, results, parts, zs, n - 1);
      EmitsOneMore(marker, calls, results, Joined(parts, n - 1), parts[n - 1], Joined(zs, n - 1), zs[n - 1]);
    }
  }

  lemma EmitsOneMore(marker: string -> bool, calls: map<string, string>, results: map<string, string>,
                     before: seq<Event>, last: seq<Event>, x: seq<Emitted>, y: seq<Emitted>)
    requires EmitAll(marker, calls, results, before, |before|) == x
    requires EmitAll(marker, calls, results, last, |last|) == y
    ensures EmitAll(marker, calls, results, before + last, |before + last|) == x + y
  {
    EmitAllOfSum(marker, calls, results, before, last);
  }

  lemma {:induction false} InterleavedIsJoined<T>(xs: seq<seq<T>>, ys: seq<seq<T>>, zs: seq<seq<T>>, n: nat)
    requires n <= |xs| && n <= |ys| && n <= |zs| && forall i :: 0 <= i < n ==> zs[i] == xs[i] + ys[i]
    ensures Interleaved(xs, ys, n) == Joined(zs, n)
  {
    if n == 0 {
    } else {
      InterleavedIsJoined(xs, ys, zs, n - 1);
    }
  }

  lemma EmitsInterleaved(marker: string -> bool, calls: map<string, string>, results: map<string, string>,
                         msgs: seq<Message>)
    ensures EmitAll(marker, calls, results, Events(msgs, |msgs|), |Events(msgs, |msgs|)|)
      == Interleaved(Echoes(msgs), Rests(marker, calls, results, msgs), |msgs|)
  {
    var parts, xs, ys := Parts(msgs), Echoes(msgs), Rests(marker, calls, results, msgs);
    var zs := seq(|msgs|, i requires 0 <= i < |msgs| => xs[i] + ys[i]);
    forall i | 0 <= i < |msgs| ensures EmitAll(marker, calls, results, parts[i], |parts[i]|) == zs[i] {
      EchoFirst(marker, calls, results, msgs[i]);
    }
    JoinedEmits(marker, calls, results, parts, zs, |msgs|);
    InterleavedIsJoined(xs, ys, zs, |msgs|);
  }

  lemma TablesOfPayloads(marker: string -> bool, a: seq<Message>, b: seq<Message>)
    requires SamePayload(marker, a, b)
    ensures var x, y := Events(a, |a|), Events(b, |b|);
      SameTables(marker, Calls(x, |x|), Calls(y, |y|), Results(x, |x|), Results(y, |y|))
  {
    var x, y := Events(QuietAll(a), |a|), Events(QuietAll(b), |b|);
    QuietTables(a);
    QuietTables(b);
    QuietPayloadEvents(marker, a, b);
    assert SameButResults(marker, x, y);
    SameCalls(marker, x, y, |x|);
    forall id
      ensures Failed(marker, Lookup(Results(x, |x|), id)) <==> Failed(marker, Lookup(Results(y, |y|), id))
      ensures id !in Calls(x, |x|) ==> Lookup(Results(x, |x|), id) == Lookup(Results(y, |y|), id)
    {
      SameVerdicts(marker, x, y, |x|, id);
    }
  }

  /** The quiet forms of two payloads that differ in results only emit the same, message by message. */
  lemma SameRests(marker: string -> bool, a: seq<Message>, b: seq<Message>)
    requires SamePayload(marker, a, b)
    ensures var x, y := Events(a, |a|), Events(b, |b|);
      Rests(marker, Calls(x, |x|), Results(x, |x|), a) == Rests(marker, Calls(y, |y|), Results(y, |y|), b)
  {
    var x, y := Events(a, |a|), Events(b, |b|);
    var calls, calls', results, results' := Calls(x, |x|), Calls(y, |y|), Results(x, |x|), Results(y, |y|);
    TablesOfPayloads(marker, a, b);
    forall i | 0 <= i < |a|
      ensures EmitMessage(marker, calls, results, Quiet(a[i])) == EmitMessage(marker, calls', results', Quiet(b[i]))
    {
      QuietMessageEvents(marker, Known(a), a[i], b[i]);
      var p, q := MessageEvents(Quiet(a[i])), MessageEvents(Quiet(b[i]));
      SegmentEmits(marker, Known(a), calls, calls', results, results', p, q);
    }
  }

  /** What a payload hands on: its echoes, each before what is left of its message. */
  lemma ResolvedInterleaves(marker: string -> bool, msgs: seq<Message>)
    ensures var x := Events(msgs, |msgs|);
      Resolved(marker, x) == Interleaved(Echoes(msgs), Rests(marker, Calls(x, |x|), Results(x, |x|), msgs), |msgs|)
  {
    var x := Events(msgs, |msgs|);
    EmitsInterleaved(marker, Calls(x, |x|), Results(x, |x|), msgs);
  }

  /** For two payloads that differ only in results of calls they contain, with the same verdicts, and
      no flat result item of the first says more than that of the second: the same is handed on exactly
      when their flat result items say the same. */
  lemma ResultsReplacedIff(marker: string -> bool, a: seq<Message>, b: seq<Message>)
    requires SamePayload(marker, a, b)
    requires forall i :: 0 <= i < |a| ==> |Echo(a[i])| <= |Echo(b[i])|
    ensures Resolved(marker, Events(a, |a|)) == Resolved(marker, Events(b, |b|)) <==>
            forall i :: 0 <= i < |a| ==> Echo(a[i]) == Echo(b[i])
  {
    var x := Events(a, |a|);
    var rests := Rests(marker, Calls(x, |x|), Results(x, |x|), a);
    ResolvedInterleaves(marker, a);
    ResolvedInterleaves(marker, b);
    SameRests(marker, a, b);
    EchoesIff(a, b, rests);
  }

  lemma EchoesIff(a: seq<Message>, b: seq<Message>, rests: seq<seq<Emitted>>)
    requires |a| == |b| == |rests| && forall i :: 0 <= i < |a| ==> |Echo(a[i])| <= |Echo(b[i])|
    ensures Interleaved(Echoes(a), rests, |a|) == Interleaved(Echoes(b), rests, |b|) <==>
            forall i :: 0 <= i < |a| ==> Echo(a[i]) == Echo(b[i])
  {
    InterleavedIff(Echoes(a), Echoes(b), rests, |a|);
    forall i | 0 <= i < |a| ensures Echoes(a)[i] == Echo(a[i]) && Echoes(b)[i] == Echo(b[i]) {
    }
  }

  /** For every payload: replacing results of calls it contains by any others with the same failure
      verdicts leaves what is handed on unchanged, unless a replaced message is a flat result item with
      a non-empty string content and a role other than tool, user or system. */
  lemma PayloadResultsDecideSuccessOnly(marker: string -> bool, a: seq<Message>, b: seq<Message>)
    requires SamePayload(marker, a, b)
    requires forall i :: 0 <= i < |a| && a[i] != b[i] ==>
      !(FlatResult(a[i]) && Speaks(a[i])) && !(FlatResult(b[i]) && Speaks(b[i]))
    ensures Resolved(marker, Events(a, |a|)) == Resolved(marker, Events(b, |b|))
  {
    ResultsReplacedIff(marker, a, b);
  }

  /** Replacing the result one message carries leaves what is handed on unchanged exactly when the
      message, as a flat result item, says the same before and after. */
  lemma OneResultReplacedIff(marker: string -> bool, msgs: seq<Message>, i: nat, m: Message)
    requires i < |msgs| && SameMessage(marker, Known(msgs), msgs[i], m)
    ensures Resolved(marker, Events(msgs, |msgs|)) == Resolved(marker, Events(msgs[i := m], |msgs|)) <==>
            Echo(msgs[i]) == Echo(m)
  {
    var other := msgs[i := m];
    OneReplaced(marker, msgs, i, m);
    OneEcho(msgs, i, m);
    if |Echo(msgs[i])| <= |Echo(m)| {
      ResultsReplacedIff(marker, msgs, other);
    } else {
      SamePayloadBack(marker, msgs, other);
      ResultsReplacedIff(marker, other, msgs);
    }
  }

  lemma OneReplaced(marker: string -> bool, msgs: seq<Message>, i: nat, m: Message)
    requires i < |msgs| && SameMessage(marker, Known(msgs), msgs[i], m)
    ensures SamePayload(marker, msgs, msgs[i := m])
    ensures forall k :: 0 <= k < |msgs| && k != i ==> Echo(msgs[k]) == Echo(msgs[i := m][k])
    ensures Echo(msgs[i := m][i]) == Echo(m)
  {
  }

  lemma OneEcho(msgs: seq<Message>, i: nat, m: Message)
    requires i < |msgs|
    ensures (forall k :: 0 <= k < |msgs| ==> Echo(msgs[k]) == Echo(msgs[i := m][k])) <==> Echo(msgs[i]) == Echo(m)
  {
    assert msgs[i := m][i] == m;
  }

  lemma SamePayloadBack(marker: string -> bool, a: seq<Message>, b: seq<Message>)
    requires SamePayload(marker, a, b)
    ensures SamePayload(marker, b, a)
  {
    TablesOfPayloads(marker, a, b);
    assert Known(a) == Known(b);
    forall i | 0 <= i < |a| ensures SameMessage(marker, Known(b), b[i], a[i]) {
      SameMessageBack(marker, Known(a), a[i], b[i]);
    }
  }

  lemma SameMessageBack(marker: string -> bool, known: set<string>, a: Message, b: Message)
    requires SameMessage(marker, known, a, b)
    ensures SameMessage(marker, known, b, a)
  {
  }

  /** A flat result of a known call, said by nobody in particular: it is handed on as narration. */
  lemma FlatResultIsNarrated(marker: string -> bool, id: string, name: string, args: string, text: string)
    requires text != "" && !marker(text)
    ensures var call := Message(Assistant, Blocks([ToolUse(id, name, Some(args))], ""), [], "", None);
      var result := Message(Assistant, Text(text), [], "", Some(ResultItem(id)));
      Resolved(marker, Events([call, result], 2)) == [Adjudicated(Rendered(name, args)), Narration(text)]
  {
    var use := ToolUse(id, name, Some(args));
    var call := Message(Assistant, Blocks([use], ""), [], "", None);
    var result := Message(Assistant, Text(text), [], "", Some(ResultItem(id)));
    var c := Rendered(name, args);
    RenderedNotEmpty(name, args);
    OneBlock(call, use);
    OneBlock(result, ToolResult(id, text));
    assert Events([call, result], 0) == [];
    assert Events([call, result], 1) == [Call(id, c)];
    assert Events([call, result], 2) == [Call(id, c), Say(text), Result(id, text)];
    EchoedResult(marker, id, c, text);
  }

  /** A message without tool calls and with one block says its text and then the block. */
  lemma OneBlock(m: Message, b: Block)
    requires m.Message? && m.toolCalls == [] && m.role != ToolRole && BlocksOf(m) == [b]
    ensures MessageEvents(m) == SpokenEvents(m) + BlockEvent(m.role, b)
  {
    assert BlockEvents(m.role, [b], 0) == [];
    assert BlockEvents(m.role, [b], 1) == BlockEvent(m.role, b);
    assert CallEvents(m.toolCalls, 0) == [];
  }

  lemma EchoedResult(marker: string -> bool, id: string, call: string, text: string)
    requires call != "" && text != "" && !marker(text)
    ensures Resolved(marker, [Call(id, call), Say(text), Result(id, text)]) == [Adjudicated(call), Narration(text)]
  {
    var events := [Call(id, call), Say(text), Result(id, text)];
    assert Calls(events, 1) == map[id := call] && Calls(events, 2) == map[id := call];
    assert Results(events, 1) == map[] && Results(events, 2) == map[];
    var calls, results := map[id := call], map[id := text];
    assert Calls(events, 3) == calls && Results(events, 3) == results;
    assert EmitAll(marker, calls, results, events, 0) == [];
    assert EmitAll(marker, calls, results, events, 1) == [Adjudicated(call)];
    assert EmitAll(marker, calls, results, events, 2) == [Adjudicated(call), Narration(text)];
  }

  // ---------------------------------------------------------------- where narration comes from

  lemma EmittedFrom(marker: string -> bool, calls: map<string, string>, results: map<string, string>,
                    events: seq<Event>, x: Emitted)
    ensures x in EmitAll(marker, calls, results, events, |events|) <==>
            exists i :: 0 <= i < |events| && x in Emit(marker, calls, results, events[i])
  {
    var slots := EmitSlots(marker, calls, results, events);
    JoinedHas(slots, |events|, x);
    forall i | 0 <= i < |events| ensures slots[i] == Emit(marker, calls, results, events[i]) {
    }
  }

  lemma {:induction false} ResultsAre(events: seq<Event>, n: nat, id: string)
    requires n <= |events|
    ensures id in Results(events, n) ==> Result(id, Results(events, n)[id]) in events[..n]
    ensures id in Calls(events, n) ==> Call(id, Calls(events, n)[id]) in events[..n]
    ensures forall i :: 0 <= i < n && events[i].Call? ==> events[i].id in Calls(events, n)
  {
    if n == 0 {
    } else {
      ResultsAre(events, n - 1, id);
      assert events[..n] == events[..n - 1] + [events[n - 1]];
    }
  }

  /** The text is that of a result under an id that no call has. */
  predicate Orphan(events: seq<Event>, id: string, text: string) {
    Result(id, text) in events && forall i :: 0 <= i < |events| && events[i].Call? ==> events[i].id != id
  }

  lemma NarrationFromEvents(marker: string -> bool, events: seq<Event>, text: string)
    requires Narration(text) in Resolved(marker, events)
    ensures text != "" && (Say(text) in events || exists id :: Orphan(events, id, text))
  {
    var n := |events|;
    EmittedFrom(marker, Calls(events, n), Results(events, n), events, Narration(text));
    var i :| 0 <= i < n && Narration(text) in Emit(marker, Calls(events, n), Results(events, n), events[i]);
    if events[i].Result? {
      ResultsAre(events, n, events[i].id);
      assert events[..n] == events;
      assert Orphan(events, events[i].id, text);
    }
  }

  /** The message says the text, in its content or in a text block, without being a result itself. */
  predicate Says(m: Message, text: string) {
    && m.Message? && !FlatResult(m)
    && ((Speaks(m) && m.content.text == text)
        || (Narrates(m.role) && m.role != ToolRole && TextBlock(text) in BlocksOf(m)))
  }

  lemma {:induction false} SaidInBlocks(role: Role, blocks: seq<Block>, n: nat, text: string)
    requires n <= |blocks|
    ensures Say(text) in BlockEvents(role, blocks, n) ==> Narrates(role) && TextBlock(text) in blocks
  {
    if n == 0 {
    } else {
      SaidInBlocks(role, blocks, n - 1, text);
    }
  }

  lemma {:induction false} CallsSayNothing(calls: seq<ToolCall>, n: nat, text: string)
    requires n <= |calls|
    ensures Say(text) !in CallEvents(calls, n)
  {
    if n == 0 {
    } else {
      CallsSayNothing(calls, n - 1, text);
    }
  }

  lemma SaidInMessage(m: Message, text: string)
    requires Say(text) in MessageEvents(m)
    ensures Says(m, text) || Echo(m) == [Narration(text)]
  {
    CallsSayNothing(m.toolCalls, |m.toolCalls|, text);
    if m.role != ToolRole {
      SaidInBlocks(m.role, BlocksOf(m), |BlocksOf(m)|, text);
    }
  }

  lemma SaidInPayload(msgs: seq<Message>, text: string)
    ensures Say(text) in Events(msgs, |msgs|) <==>
            exists i :: 0 <= i < |msgs| && Say(text) in MessageEvents(msgs[i])
  {
    JoinedHas(Parts(msgs), |msgs|, Say(text));
    forall i | 0 <= i < |msgs| ensures Parts(msgs)[i] == MessageEvents(msgs[i]) {
    }
  }

  /** For every payload: a text is emitted as narration only if a message says it, or it is a result
      whose call the payload does not contain, or a flat result item echoes it. */
  lemma NarrationIsSaidOrOrphan(marker: string -> bool, msgs: seq<Message>, text: string)
    requires Narration(text) in Resolved(marker, Events(msgs, |msgs|))
    ensures || (exists i :: 0 <= i < |msgs| && Says(msgs[i], text))
            || (exists id :: Orphan(Events(msgs, |msgs|), id, text))
            || (exists i :: 0 <= i < |msgs| && Echo(msgs[i]) == [Narration(text)])
  {
    NarrationFromEvents(marker, Events(msgs, |msgs|), text);
    SaidInPayload(msgs, text);
    if Say(text) in Events(msgs, |msgs|) {
      var i :| 0 <= i < |msgs| && Say(text) in MessageEvents(msgs[i]);
      SaidInMessage(msgs[i], text);
    }
  }

  /** What a flat result item echoes is always emitted, known call or not. */
  lemma EchoIsEmitted(marker: string -> bool, msgs: seq<Message>, i: nat)
    requires i < |msgs| && FlatResult(msgs[i]) && Speaks(msgs[i])
    ensures Narration(msgs[i].content.text) in Resolved(marker, Events(msgs, |msgs|))
  {
    var events, text := Events(msgs, |msgs|), msgs[i].content.text;
    QuietIsRest(msgs[i]);
    assert Say(text) in MessageEvents(msgs[i]);
    SaidInPayload(msgs, text);
    var k :| 0 <= k < |events| && events[k] == Say(text);
    EmittedFrom(marker, Calls(events, |events|), Results(events, |events|), events, Narration(text));
    assert Narration(text) in Emit(marker, Calls(events, |events|), Results(events, |events|), events[k]);
  }

  // ---------------------------------------------------------------- every surviving call at its slot

  /** Index of the last of the first n events that calls under id; -1 when none does. */
  function LastCall(events: seq<Event>, n: nat, id: string): (i: int)
    requires n <= |events|
    ensures -1 <= i < n
    ensures i >= 0 ==> events[i].Call? && events[i].id == id
    ensures forall j :: i < j < n && events[j].Call? ==> events[j].id != id
  {
    if n == 0 then -1
    else if events[n - 1].Call? && events[n - 1].id == id then n - 1
    else LastCall(events, n - 1, id)
  }

  /** Index of the last of the first n events that reports a result under id; -1 when none does. */
  function LastResult(events: seq<Event>, n: nat, id: string): (i: int)
    requires n <= |events|
    ensures -1 <= i < n
    ensures i >= 0 ==> events[i].Result? && events[i].id == id
    ensures forall j :: i < j < n && events[j].Result? ==> events[j].id != id
  {
    if n == 0 then -1
    else if events[n - 1].Result? && events[n - 1].id == id then n - 1
    else LastResult(events, n - 1, id)
  }

  lemma {:induction false} TablesHoldTheLast(events: seq<Event>, n: nat, id: string)
    requires n <= |events|
    ensures Get(Calls(events, n), id) ==
      if LastCall(events, n, id) >= 0 then Some(events[LastCall(events, n, id)].call) else None
    ensures Get(Results(events, n), id) ==
      if LastResult(events, n, id) >= 0 then Some(events[LastResult(events, n, id)].text) else None
  {
    if n == 0 {
    } else {
      TablesHoldTheLast(events, n - 1, id);
    }
  }

  /** The last result reported for an id says that it failed. */
  predicate FailedId(marker: string -> bool, events: seq<Event>, id: string) {
    var r := LastResult(events, |events|, id);
    r >= 0 && Failed(marker, events[r].text)
  }

  /** Event i is a call that did not fail. */
  predicate Survives(marker: string -> bool, events: seq<Event>, i: nat)
    requires i < |events|
  {
    events[i].Call? && !FailedId(marker, events, events[i].id)
  }

  /** The last call under the same id says the same thing. */
  predicate KeepsItsId(events: seq<Event>, i: nat)
    requires i < |events| && events[i].Call?
  {
    events[LastCall(events, |events|, events[i].id)].call == events[i].call
  }

  /** The first call under the same id after call i, or the end. */
  function NextCall(events: seq<Event>, i: nat, n: nat): (k: nat)
    requires i < n <= |events| && events[i].Call?
    ensures i < k <= n
    ensures k < n ==> events[k].Call? && events[k].id == events[i].id
    ensures forall j :: i < j < k && events[j].Call? ==> events[j].id != events[i].id
  {
    if i + 1 == n then n
    else
      var k := NextCall(events, i, n - 1);
      if k < n - 1 || (events[n - 1].Call? && events[n - 1].id == events[i].id) then k else n
  }

  /** Index of a call's own result: the last one under its id, after it and before the next call of
      that id; -1 when there is none. */
  function OwnResult(events: seq<Event>, i: nat): (r: int)
    requires i < |events| && events[i].Call?
    ensures r == -1 || i < r < NextCall(events, i, |events|)
    ensures r >= 0 ==> events[r].Result? && events[r].id == events[i].id
    ensures forall j :: (if r >= 0 then r else i) < j < NextCall(events, i, |events|) && events[j].Result? ==>
      events[j].id != events[i].id
  {
    var r := LastResult(events, NextCall(events, i, |events|), events[i].id);
    if r > i then r else -1
  }

  /** The call's own result says that it failed. */
  predicate OwnFailed(marker: string -> bool, events: seq<Event>, i: nat)
    requires i < |events| && events[i].Call?
  {
    var r := OwnResult(events, i);
    r >= 0 && Failed(marker, events[r].text)
  }

  /** What event i contributes when calls are judged as given: narration; a call that did not fail, as
      it stands; the last result of an id that no call has. */
  function SlotOf(events: seq<Event>, i: nat, failed: bool): seq<Emitted>
    requires i < |events|
  {
    match events[i]
    case Say(text) => if text != "" then [Narration(text)] else []
    case Call(_, call) => if failed then [] else [Adjudicated(call)]
    case Result(id, _) =>
      var r := LastResult(events, |events|, id);
      if LastCall(events, |events|, id) < 0 && events[r].text != "" then [Narration(events[r].text)] else []
  }

  /** Every slot, calls judged by the last result under their id. */
  function SlotsByLast(marker: string -> bool, events: seq<Event>): (slots: seq<seq<Emitted>>)
    ensures |slots| == |events|
  {
    seq(|events|, i requires 0 <= i < |events| =>
      SlotOf(events, i, events[i].Call? && FailedId(marker, events, events[i].id)))
  }

  /** Every slot, calls judged by their own results. */
  function SlotsByOwn(marker: string -> bool, events: seq<Event>): (slots: seq<seq<Emitted>>)
    ensures |slots| == |events|
  {
    seq(|events|, i requires 0 <= i < |events| => SlotOf(events, i, events[i].Call? && OwnFailed(marker, events, i)))
  }

  /** Every slot as the second pass fills it; what is handed on is the slots, one after the other. */
  function Slots(marker: string -> bool, events: seq<Event>): (slots: seq<seq<Emitted>>)
    ensures |slots| == |events|
    ensures Resolved(marker, events) == Joined(slots, |events|)
  {
    EmitSlots(marker, Calls(events, |events|), Results(events, |events|), events)
  }

  /** Every call of a payload is rendered as a name with arguments, so none is empty. */
  predicate NoEmptyCalls(events: seq<Event>) {
    forall i :: 0 <= i < |events| && events[i].Call? ==> events[i].call != ""
  }

  /** One slot of a call holds the text of the last call under its id, unless the last result under
      that id says that it failed; any other slot is what it contributes by itself. */
  lemma SlotEmits(marker: string -> bool, events: seq<Event>, i: nat)
    requires i < |events| && NoEmptyCalls(events)
    ensures var e := Emit(marker, Calls(events, |events|), Results(events, |events|), events[i]);
      if events[i].Call? then
        e == if FailedId(marker, events, events[i].id) then []
             else [Adjudicated(events[LastCall(events, |events|, events[i].id)].call)]
      else e == SlotOf(events, i, false)
  {
    if !events[i].Say? {
      TablesHoldTheLast(events, |events|, events[i].id);
    }
  }

  /** Every surviving call among the first n events keeps its id. */
  predicate AllKept(marker: string -> bool, events: seq<Event>, n: nat)
    requires n <= |events|
  {
    forall i :: 0 <= i < n && Survives(marker, events, i) ==> KeepsItsId(events, i)
  }

  lemma LastSlotIff(marker: string -> bool, events: seq<Event>, i: nat)
    requires i < |events| && NoEmptyCalls(events)
    ensures var e, own := Slots(marker, events)[i], SlotsByLast(marker, events)[i];
      |e| == |own| && (e == own <==> (Survives(marker, events, i) ==> KeepsItsId(events, i)))
  {
    SlotEmits(marker, events, i);
  }

  /** For every payload: what is handed on is each slot's own contribution, in document order, calls
      being judged by the last result under their id, exactly when no surviving call's id was taken over
      by a later call of another text. */
  lemma CallsStandAtTheirSlotsIff(marker: string -> bool, msgs: seq<Message>)
    ensures var events := Events(msgs, |msgs|);
      Resolved(marker, events) == Joined(SlotsByLast(marker, events), |events|) <==>
      AllKept(marker, events, |events|)
  {
    var events := Events(msgs, |msgs|);
    PayloadCallsAreNotEmpty(msgs);
    forall i | 0 <= i < |events|
      ensures var e, own := Slots(marker, events)[i], SlotsByLast(marker, events)[i];
        |e| == |own| && (e == own <==> (Survives(marker, events, i) ==> KeepsItsId(events, i)))
    {
      LastSlotIff(marker, events, i);
    }
    JoinedIff(Slots(marker, events), SlotsByLast(marker, events), |events|);
  }

  /** A call's own result has the verdict of the last result under its id. */
  predicate VerdictAgrees(marker: string -> bool, events: seq<Event>, i: nat)
    requires i < |events|
  {
    events[i].Call? ==> (OwnFailed(marker, events, i) <==> FailedId(marker, events, events[i].id))
  }

  predicate VerdictsAgree(marker: string -> bool, events: seq<Event>) {
    forall i :: 0 <= i < |events| ==> VerdictAgrees(marker, events, i)
  }

  lemma OwnSlotIff(marker: string -> bool, events: seq<Event>, i: nat)
    requires i < |events| && NoEmptyCalls(events)
    ensures Slots(marker, events)[i] == SlotsByOwn(marker, events)[i] <==>
            VerdictAgrees(marker, events, i) && (Survives(marker, events, i) ==> KeepsItsId(events, i))
  {
    SlotEmits(marker, events, i);
  }

  /** For every payload: each slot holds its own call unless that call's own result says that it
      failed, exactly when every call's own verdict is that of the last result under its id and every
      call that survives keeps its id.  Then the whole is the slots in document order. */
  lemma OwnResultsDecideIff(marker: string -> bool, msgs: seq<Message>)
    ensures var events := Events(msgs, |msgs|);
      Slots(marker, events) == SlotsByOwn(marker, events) <==>
      VerdictsAgree(marker, events) && AllKept(marker, events, |events|)
    ensures var events := Events(msgs, |msgs|);
      VerdictsAgree(marker, events) && AllKept(marker, events, |events|) ==>
      Resolved(marker, events) == Joined(SlotsByOwn(marker, events), |events|)
  {
    var events := Events(msgs, |msgs|);
    PayloadCallsAreNotEmpty(msgs);
    forall i | 0 <= i < |events|
      ensures Slots(marker, events)[i] == SlotsByOwn(marker, events)[i] <==>
              VerdictAgrees(marker, events, i) && (Survives(marker, events, i) ==> KeepsItsId(events, i))
    {
      OwnSlotIff(marker, events, i);
    }
    assert Slots(marker, events) == SlotsByOwn(marker, events) <==>
      forall i :: 0 <= i < |events| ==> Slots(marker, events)[i] == SlotsByOwn(marker, events)[i];
  }

  lemma RenderedNotEmpty(name: string, args: string)
    ensures Rendered(name, args) != ""
  {
    assert |Rendered(name, args)| >= 2;
  }

  lemma {:induction false} ToolCallsNotEmpty(calls: seq<ToolCall>, n: nat)
    requires n <= |calls|
    ensures NoEmptyCalls(CallEvents(calls, n))
  {
    if n == 0 {
    } else {
      ToolCallsNotEmpty(calls, n - 1);
      RenderedNotEmpty(calls[n - 1].name, calls[n - 1].args);
    }
  }

  lemma {:induction false} BlockCallsNotEmpty(role: Role, blocks: seq<Block>, n: nat)
    requires n <= |blocks|
    ensures NoEmptyCalls(BlockEvents(role, blocks, n))
  {
    if n == 0 {
    } else {
      BlockCallsNotEmpty(role, blocks, n - 1);
      var b := blocks[n - 1];
      if b.FunctionCall? {
        RenderedNotEmpty(b.name, b.args);
      } else if b.ToolUse? && b.input.Some? {
        RenderedNotEmpty(b.name, b.input.value);
      }
    }
  }

  lemma NoEmptySum(a: seq<Event>, b: seq<Event>)
    requires NoEmptyCalls(a) && NoEmptyCalls(b)
    ensures NoEmptyCalls(a + b)
  {
  }

  lemma MessageCallsNotEmpty(m: Message)
    ensures NoEmptyCalls(MessageEvents(m))
  {
    if m.Message? {
      var said, calls := SpokenEvents(m), CallEvents(m.toolCalls, |m.toolCalls|);
      ToolCallsNotEmpty(m.toolCalls, |m.toolCalls|);
      BlockCallsNotEmpty(m.role, BlocksOf(m), |BlocksOf(m)|);
      NoEmptySum(said, calls);
      NoEmptySum(said + calls, RestEvents(m));
    }
  }

  lemma {:induction false} JoinedCallsNotEmpty(parts: seq<seq<Event>>, n: nat)
    requires n <= |parts| && forall i :: 0 <= i < n ==> NoEmptyCalls(parts[i])
    ensures NoEmptyCalls(Joined(parts, n))
  {
    if n == 0 {
    } else {
      JoinedCallsNotEmpty(parts, n - 1);
      NoEmptySum(Joined(parts, n - 1), parts[n - 1]);
    }
  }

  lemma PayloadCallsAreNotEmpty(msgs: seq<Message>)
    ensures NoEmptyCalls(Events(msgs, |msgs|))
  {
    forall i | 0 <= i < |msgs| ensures NoEmptyCalls(Parts(msgs)[i]) {
      MessageCallsNotEmpty(msgs[i]);
    }
    JoinedCallsNotEmpty(Parts(msgs), |msgs|);
  }

  /** The calls handed on, in order. */
  function HandedOn(emitted: seq<Emitted>, n: nat): seq<string>
    requires n <= |emitted|
  {
    if n == 0 then []
    else
      var before := HandedOn(emitted, n - 1);
      if emitted[n - 1].Adjudicated? then before + [emitted[n - 1].call] else before
  }

  lemma {:induction false} HandedOnPrefix(a: seq<Emitted>, b: seq<Emitted>, n: nat)
    requires n <= |a| && a <= b
    ensures HandedOn(a, n) == HandedOn(b, n)
  {
    if n == 0 {
    } else {
      HandedOnPrefix(a, b, n - 1);
    }
  }

  /** The texts that are there, in order. */
  function Somes(texts: seq<Option<string>>, n: nat): seq<string>
    requires n <= |texts|
  {
    if n == 0 then []
    else
      var before := Somes(texts, n - 1);
      if texts[n - 1].Some? then before + [texts[n - 1].value] else before
  }

  lemma {:induction false} SomesIff(a: seq<Option<string>>, b: seq<Option<string>>, n: nat)
    requires n <= |a| && n <= |b| && forall i :: 0 <= i < n ==> (a[i].Some? <==> b[i].Some?)
    ensures |Somes(a, n)| == |Somes(b, n)|
    ensures Somes(a, n) == Somes(b, n) <==> forall i :: 0 <= i < n ==> a[i] == b[i]
  {
    if n == 0 {
    } else {
      SomesIff(a, b, n - 1);
      if a[n - 1].Some? {
        AppendEqual(Somes(a, n - 1), Somes(b, n - 1), [a[n - 1].value], [b[n - 1].value]);
      }
    }
  }

  /** The slot hands on the text, if there is one, and no other call. */
  predicate HandsOn(slot: seq<Emitted>, text: Option<string>) {
    |slot| <= 1 && if text.Some? then slot == [Adjudicated(text.value)] else |slot| == 0 || slot[0].Narration?
  }

  lemma {:induction false} HandedOnAre(slots: seq<seq<Emitted>>, texts: seq<Option<string>>, n: nat)
    requires n <= |slots| && n <= |texts| && forall i :: 0 <= i < n ==> HandsOn(slots[i], texts[i])
    ensures HandedOn(Joined(slots, n), |Joined(slots, n)|) == Somes(texts, n)
  {
    if n == 0 {
    } else {
      HandedOnAre(slots, texts, n - 1);
      HandedOnMore(Joined(slots, n - 1), slots[n - 1], texts[n - 1]);
    }
  }

  lemma HandedOnMore(before: seq<Emitted>, slot: seq<Emitted>, text: Option<string>)
    requires HandsOn(slot, text)
    ensures HandedOn(before + slot, |before + slot|) ==
      if text.Some? then HandedOn(before, |before|) + [text.value] else HandedOn(before, |before|)
  {
    HandedOnPrefix(before, before + slot, |before|);
  }

  /** Each surviving call, as it stands. */
  function Surviving(marker: string -> bool, events: seq<Event>): (texts: seq<Option<string>>)
    ensures |texts| == |events|
  {
    seq(|events|, i requires 0 <= i < |events| =>
      if Survives(marker, events, i) then Some(events[i].call) else None)
  }

  /** Each surviving call, with the text of the last call under its id. */
  function Taken(marker: string -> bool, events: seq<Event>): (texts: seq<Option<string>>)
    ensures |texts| == |events|
  {
    seq(|events|, i requires 0 <= i < |events| =>
      if Survives(marker, events, i) then Some(events[LastCall(events, |events|, events[i].id)].call) else None)
  }

  /** Each call whose own result does not say that it failed, as it stands. */
  function OwnSurviving(marker: string -> bool, events: seq<Event>): (texts: seq<Option<string>>)
    ensures |texts| == |events|
  {
    seq(|events|, i requires 0 <= i < |events| =>
      if events[i].Call? && !OwnFailed(marker, events, i) then Some(events[i].call) else None)
  }

  /** The calls whose last result under their id does not say that they failed, in order. */
  function SurvivingCalls(marker: string -> bool, events: seq<Event>): seq<string> {
    Somes(Surviving(marker, events), |events|)
  }

  /** The calls whose own result does not say that they failed, in order. */
  function OwnSurvivors(marker: string -> bool, events: seq<Event>): seq<string> {
    Somes(OwnSurviving(marker, events), |events|)
  }

  lemma HandedOnAreTaken(marker: string -> bool, events: seq<Event>)
    requires NoEmptyCalls(events)
    ensures var emitted := Resolved(marker, events);
      HandedOn(emitted, |emitted|) == Somes(Taken(marker, events), |events|)
  {
    var slots, texts := Slots(marker, events), Taken(marker, events);
    forall i | 0 <= i < |events| ensures HandsOn(slots[i], texts[i]) {
      SlotEmits(marker, events, i);
    }
    HandedOnAre(slots, texts, |events|);
  }

  lemma TakenIffKept(marker: string -> bool, events: seq<Event>)
    ensures Somes(Taken(marker, events), |events|) == SurvivingCalls(marker, events) <==>
            AllKept(marker, events, |events|)
  {
    var taken, own := Taken(marker, events), Surviving(marker, events);
    forall i | 0 <= i < |events|
      ensures taken[i].Some? <==> own[i].Some?
      ensures taken[i] == own[i] <==> (Survives(marker, events, i) ==> KeepsItsId(events, i))
    {
    }
    SomesIff(taken, own, |events|);
  }

  /** For every payload: the calls handed on are, in order, exactly the calls whose last result under
      their id does not say that they failed, iff each of those keeps its id. */
  lemma SurvivingCallsInOrderIff(marker: string -> bool, msgs: seq<Message>)
    ensures var events := Events(msgs, |msgs|);
      var emitted := Resolved(marker, events);
      HandedOn(emitted, |emitted|) == SurvivingCalls(marker, events) <==> AllKept(marker, events, |events|)
  {
    PayloadCallsAreNotEmpty(msgs);
    HandedOnAreTaken(marker, Events(msgs, |msgs|));
    TakenIffKept(marker, Events(msgs, |msgs|));
  }

  /** For every payload where that is so and every call's own verdict is that of the last result under
      its id, the calls handed on are, in order, exactly the calls whose own result does not say that
      they failed. */
  lemma OwnSurvivorsInOrder(marker: string -> bool, msgs: seq<Message>)
    requires var events := Events(msgs, |msgs|);
      VerdictsAgree(marker, events) && AllKept(marker, events, |events|)
    ensures var events := Events(msgs, |msgs|);
      var emitted := Resolved(marker, events);
      HandedOn(emitted, |emitted|) == OwnSurvivors(marker, events)
  {
    var events := Events(msgs, |msgs|);
    SurvivingCallsInOrderIff(marker, msgs);
    forall i | 0 <= i < |events| ensures OwnSurviving(marker, events)[i] == Surviving(marker, events)[i] {
      assert VerdictAgrees(marker, events, i);
    }
    assert OwnSurviving(marker, events) == Surviving(marker, events);
  }

  predicate DistinctCallIds(events: seq<Event>) {
    forall j, k :: 0 <= j < k < |events| && events[j].Call? && events[k].Call? ==> events[j].id != events[k].id
  }

  /** No result of a call comes before the call. */
  predicate ResultsFollow(events: seq<Event>) {
    forall r, i :: 0 <= r < i < |events| && events[r].Result? && events[i].Call? ==> events[r].id != events[i].id
  }

  lemma OwnIsLast(marker: string -> bool, events: seq<Event>, i: nat)
    requires DistinctCallIds(events) && ResultsFollow(events) && i < |events| && events[i].Call?
    ensures OwnFailed(marker, events, i) <==> FailedId(marker, events, events[i].id)
  {
    var k := NextCall(events, i, |events|);
    assert k == |events|;
    var r := LastResult(events, |events|, events[i].id);
    assert r < 0 || r > i;
  }

  /** With distinct call ids every surviving call is handed on, once, as itself, at its own slot; and
      where results follow their calls, the surviving ones are those whose own result does not say that
      they failed. */
  lemma DistinctIdsKeepCalls(marker: string -> bool, msgs: seq<Message>)
    requires DistinctCallIds(Events(msgs, |msgs|))
    ensures var events := Events(msgs, |msgs|);
      var emitted := Resolved(marker, events);
      && emitted == Joined(SlotsByLast(marker, events), |events|)
      && HandedOn(emitted, |emitted|) == SurvivingCalls(marker, events)
    ensures var events := Events(msgs, |msgs|);
      var emitted := Resolved(marker, events);
      ResultsFollow(events) ==>
        && emitted == Joined(SlotsByOwn(marker, events), |events|)
        && HandedOn(emitted, |emitted|) == OwnSurvivors(marker, events)
  {
    var events := Events(msgs, |msgs|);
    forall i | 0 <= i < |events| && Survives(marker, events, i) ensures KeepsItsId(events, i) {
      var k := LastCall(events, |events|, events[i].id);
      assert i <= k && events[k].id == events[i].id;
    }
    CallsStandAtTheirSlotsIff(marker, msgs);
    SurvivingCallsInOrderIff(marker, msgs);
    if ResultsFollow(events) {
      forall i | 0 <= i < |events| ensures VerdictAgrees(marker, events, i) {
        if events[i].Call? {
          OwnIsLast(marker, events, i);
        }
      }
      OwnResultsDecideIff(marker, msgs);
      OwnSurvivorsInOrder(marker, msgs);
    }
  }

  /** Under a reused id a later success hides an earlier failure: the first call is handed on although
      its own result says that it failed. */
  lemma LaterResultSparesFailedCall(marker: string -> bool, id: string, call: string, bad: string, good: string)
    requires call != "" && Failed(marker, bad) && !Failed(marker, good)
    ensures var events := [Call(id, call), Result(id, bad), Call(id, call), Result(id, good)];
      && OwnFailed(marker, events, 0) && AllKept(marker, events, 4)
      && Resolved(marker, events) == [Adjudicated(call), Adjudicated(call)]
  {
    var events := [Call(id, call), Result(id, bad), Call(id, call), Result(id, good)];
    assert LastResult(events, 4, id) == 3 && LastCall(events, 4, id) == 2;
    assert NextCall(events, 0, 4) == 2 && OwnResult(events, 0) == 1;
    var slots := Slots(marker, events);
    SlotEmits(marker, events, 0);
    SlotEmits(marker, events, 1);
    SlotEmits(marker, events, 2);
    SlotEmits(marker, events, 3);
    assert slots[0] == [Adjudicated(call)] && slots[1] == [] && slots[2] == [Adjudicated(call)] && slots[3] == [];
    assert Joined(slots, 0) == [] && Joined(slots, 1) == slots[0] && Joined(slots, 2) == slots[0];
    assert Joined(slots, 3) == [Adjudicated(call), Adjudicated(call)];
  }

  /** Why that is said slot by slot: over two reused ids wrong verdicts can make up for each other in
      the list of calls, which is then right although two slots are not. */
  lemma WrongVerdictsCanCompensate(marker: string -> bool, p: string, q: string, call: string, bad: string,
                                   good: string, events: seq<Event>)
    requires TwoReusedIds(p, q, call, bad, good, events) && call != "" && Failed(marker, bad) && !Failed(marker, good)
    ensures var emitted := Resolved(marker, events);
      HandedOn(emitted, |emitted|) == OwnSurvivors(marker, events)
    ensures !VerdictAgrees(marker, events, 0) && !VerdictAgrees(marker, events, 4)
  {
    TwoIdsVerdicts(marker, p, q, call, bad, good, events);
    TwoIdsSurvivors(marker, p, q, call, bad, good, events);
    HandedOnAreTaken(marker, events);
    TakenIffKept(marker, events);
  }

  predicate TwoReusedIds(p: string, q: string, call: string, bad: string, good: string, events: seq<Event>) {
    p != q && events == [Call(p, call), Result(p, bad), Call(p, call), Result(p, good),
                         Call(q, call), Result(q, good), Call(q, call), Result(q, bad)]
  }

  lemma TwoIdsVerdicts(marker: string -> bool, p: string, q: string, call: string, bad: string, good: string,
                       events: seq<Event>)
    requires TwoReusedIds(p, q, call, bad, good, events) && Failed(marker, bad) && !Failed(marker, good)
    ensures |events| == 8 && events[0] == events[2] == Call(p, call) && events[4] == events[6] == Call(q, call)
    ensures Survives(marker, events, 0) && Survives(marker, events, 2)
    ensures !Survives(marker, events, 4) && !Survives(marker, events, 6)
    ensures OwnFailed(marker, events, 0) && !OwnFailed(marker, events, 2)
    ensures !OwnFailed(marker, events, 4) && OwnFailed(marker, events, 6)
  {
    assert events[1] == Result(p, bad) && events[3] == Result(p, good);
    assert events[5] == Result(q, good) && events[7] == Result(q, bad);
    var l := LastResult(events, 8, p);
    assert l >= 3 && l == 3;
    assert LastResult(events, 8, q) == 7;
    var m := NextCall(events, 0, 8);
    assert m <= 2 && m == 2;
    var n := NextCall(events, 4, 8);
    assert n <= 6 && n == 6;
    assert NextCall(events, 2, 8) == 8 && NextCall(events, 6, 8) == 8;
    assert OwnResult(events, 0) == 1 && OwnResult(events, 2) == 3;
    assert OwnResult(events, 4) == 5 && OwnResult(events, 6) == 7;
  }

  lemma TwoIdsSurvivors(marker: string -> bool, p: string, q: string, call: string, bad: string, good: string,
                        events: seq<Event>)
    requires TwoReusedIds(p, q, call, bad, good, events) && Failed(marker, bad) && !Failed(marker, good)
    ensures SurvivingCalls(marker, events) == OwnSurvivors(marker, events) == [call, call]
  {
    TwoIdsVerdicts(marker, p, q, call, bad, good, events);
    var a, b := Surviving(marker, events), OwnSurviving(marker, events);
    assert a == [Some(call), None, Some(call), None, None, None, None, None];
    assert b == [None, None, Some(call), None, Some(call), None, None, None];
    assert Somes(a, 2) == Somes(a, 1) == [call] && Somes(a, 4) == Somes(a, 3) == [call, call];
    assert Somes(a, 6) == Somes(a, 5) == [call, call];
    assert Somes(b, 2) == Somes(b, 1) == [] && Somes(b, 4) == Somes(b, 3) == [call];
    assert Somes(b, 6) == Somes(b, 5) == [call, call];
    assert Somes(a, 8) == Somes(a, 7) == Somes(a, 6) && Somes(b, 8) == Somes(b, 7) == Somes(b, 6);
  }

  /** When an id is reused, both slots emit the later call and the earlier operation is lost. */
  lemma ReusedIdLosesCall(marker: string -> bool, id: string, first: string, second: string)
    requires first != "" && second != ""
    ensures Resolved(marker, [Call(id, first), Call(id, second)]) == [Adjudicated(second), Adjudicated(second)]
  {
    var events := [Call(id, first), Call(id, second)];
    assert Calls(events, 1) == map[id := first];
    assert Calls(events, 2) == map[id := second];
    assert Results(events, 1) == Results(events, 2) == map[];
    var e1 := EmitAll(marker, Calls(events, 2), map[], events, 1);
    assert EmitAll(marker, Calls(events, 2), map[], events, 0) == [];
    assert e1 == [Adjudicated(second)];
  }
}
