/**
  The corpus validator (distil/corpus.py, `validate`): one pass with running indices, flags and a
  table of the last text seen per stable block, against the six invariants a trajectory must meet.
*/
module Corpus {

  datatype Stability = Stable | Settling | Volatile

  datatype Kind = System | Tools | History | ToolOutput | User | Retrieved

  datatype Block = Block(id: string, kind: Kind, text: string, stability: Stability, decisionRelevant: bool)

  datatype Turn = Turn(index: int, blocks: seq<Block>)

  datatype Trajectory = Trajectory(model: string, turns: seq<Turn>)

  datatype Problem =
    | TooFewTurns
    | UnknownModel
    | StableChanged(turn: int, id: string)
    | VolatileTooEarly(turn: int)
    | NoStableDecision
    | NoVolatileDecision
    | NoNoise

  const MARKER: string := "DECISION:"

  predicate Decides(b: Block) {
    exists i :: 0 <= i <= |b.text| - |MARKER| && b.text[i..][..|MARKER|] == MARKER
  }

  // ---------------------------------------------------------------- the six invariants

  /** The blocks of the first n turns. */
  function Blocks(turns: seq<Turn>, n: nat): set<Block>
    requires n <= |turns|
  {
    if n == 0 then {} else Blocks(turns, n - 1) + BlocksOf(turns[n - 1].blocks, |turns[n - 1].blocks|)
  }

  function BlocksOf(blocks: seq<Block>, n: nat): set<Block>
    requires n <= |blocks|
  {
    if n == 0 then {} else BlocksOf(blocks, n - 1) + {blocks[n - 1]}
  }

  function AllBlocks(traj: Trajectory): set<Block> {
    Blocks(traj.turns, |traj.turns|)
  }

  lemma {:induction false} BlocksOfAre(blocks: seq<Block>, n: nat, b: Block)
    requires n <= |blocks|
    ensures b in BlocksOf(blocks, n) <==> b in blocks[..n]
  {
    if n == 0 {
    } else {
      BlocksOfAre(blocks, n - 1, b);
      assert blocks[..n] == blocks[..n - 1] + [blocks[n - 1]];
    }
  }

  /** The set of blocks leaves none out. */
  lemma {:induction false} BlocksAre(turns: seq<Turn>, n: nat, b: Block)
    requires n <= |turns|
    ensures b in Blocks(turns, n) <==> exists i :: 0 <= i < n && b in turns[i].blocks
  {
    if n == 0 {
    } else {
      BlocksAre(turns, n - 1, b);
      var last := turns[n - 1].blocks;
      BlocksOfAre(last, |last|, b);
      assert last[..|last|] == last;
    }
  }

  predicate VolatileLast(blocks: seq<Block>) {
    forall i, j :: 0 <= i < j < |blocks| && blocks[i].stability == Volatile ==> blocks[j].stability == Volatile
  }

  predicate Clash(a: Block, b: Block) {
    a.stability == Stable && b.stability == Stable && a.id == b.id && a.text != b.text
  }

  predicate StableAgree(blocks: set<Block>) {
    forall a, b :: a in blocks && b in blocks ==> !Clash(a, b)
  }

  predicate StableDecision(b: Block) {
    b.stability == Stable && Decides(b)
  }

  predicate VolatileDecision(b: Block) {
    b.stability == Volatile && b.decisionRelevant && Decides(b)
  }

  predicate Noise(b: Block) {
    b.stability == Volatile && !b.decisionRelevant && !Decides(b)
  }

  predicate Any(blocks: set<Block>, p: Block -> bool) {
    exists b :: b in blocks && p(b)
  }

  lemma AnyAdd(blocks: set<Block>, b: Block, p: Block -> bool)
    ensures Any(blocks + {b}, p) <==> Any(blocks, p) || p(b)
  {
    if p(b) {
      assert b in blocks + {b};
    }
    if Any(blocks, p) {
      var a :| a in blocks && p(a);
      assert a in blocks + {b};
    }
  }

  predicate WellFormed(traj: Trajectory, catalog: set<string>) {
    && |traj.turns| >= 3 && traj.model in catalog
    && (forall t :: 0 <= t < |traj.turns| ==> VolatileLast(traj.turns[t].blocks))
    && StableAgree(AllBlocks(traj))
    && Any(AllBlocks(traj), StableDecision) && Any(AllBlocks(traj), VolatileDecision) && Any(AllBlocks(traj), Noise)
  }

  predicate ToolOutputDecision(b: Block) {
    b.kind == ToolOutput && VolatileDecision(b)
  }

  /** The six invariants as documented: the fifth asks for a tool output. */
  predicate Documented(traj: Trajectory, catalog: set<string>) {
    && |traj.turns| >= 3 && traj.model in catalog
    && (forall t :: 0 <= t < |traj.turns| ==> VolatileLast(traj.turns[t].blocks))
    && StableAgree(AllBlocks(traj))
    && Any(AllBlocks(traj), StableDecision) && Any(AllBlocks(traj), ToolOutputDecision) && Any(AllBlocks(traj), Noise)
  }

  /** A decision in a tool output is one in a volatile block. */
  lemma ToolOutputDecides(blocks: set<Block>)
    ensures Any(blocks, ToolOutputDecision) ==> Any(blocks, VolatileDecision)
  {
    if Any(blocks, ToolOutputDecision) {
      var b :| b in blocks && ToolOutputDecision(b);
      assert VolatileDecision(b);
    }
  }

  // ---------------------------------------------------------------- the running state of the pass

  /** The first n blocks' least volatile and greatest non-volatile index. */
  predicate Indices(blocks: seq<Block>, n: nat, firstVolatile: int, lastNonvolatile: int)
    requires n <= |blocks|
  {
    && (if firstVolatile == |blocks| then forall i :: 0 <= i < n ==> blocks[i].stability != Volatile
        else 0 <= firstVolatile < n && blocks[firstVolatile].stability == Volatile
             && forall i :: 0 <= i < firstVolatile ==> blocks[i].stability != Volatile)
    && -1 <= lastNonvolatile < n
    && (lastNonvolatile >= 0 ==> blocks[lastNonvolatile].stability != Volatile)
    && forall i :: lastNonvolatile < i < n ==> blocks[i].stability == Volatile
  }

  lemma IndicesDecideOrder(blocks: seq<Block>, firstVolatile: int, lastNonvolatile: int)
    requires Indices(blocks, |blocks|, firstVolatile, lastNonvolatile)
    ensures firstVolatile >= lastNonvolatile <==> VolatileLast(blocks)
  {
    if firstVolatile < lastNonvolatile {
      assert blocks[firstVolatile].stability == Volatile && blocks[lastNonvolatile].stability != Volatile;
    }
  }

  /** The table holds the text of some scanned block for each scanned stable id; until a change was
      seen it agrees with every one of them, and once one was seen two of them clash. */
  ghost predicate Tracks(done: set<Block>, texts: map<string, string>, changed: bool) {
    && (forall id :: id in texts ==>
      exists b :: b in done && b.stability == Stable && b.id == id && b.text == texts[id])
    && (forall b :: b in done && b.stability == Stable ==> b.id in texts && (changed || texts[b.id] == b.text))
    && (changed ==> !StableAgree(done))
  }

  lemma TracksAgree(done: set<Block>, texts: map<string, string>, changed: bool)
    requires Tracks(done, texts, changed)
    ensures changed <==> !StableAgree(done)
  {
    if !changed {
      forall a, b | a in done && b in done ensures !Clash(a, b) {
      }
    }
  }

  lemma TrackOne(done: set<Block>, texts: map<string, string>, changed: bool, b: Block)
    requires Tracks(done, texts, changed)
    ensures b.stability != Stable ==> Tracks(done + {b}, texts, changed)
    ensures b.stability == Stable ==>
      Tracks(done + {b}, texts[b.id := b.text], changed || (b.id in texts && texts[b.id] != b.text))
  {
    var longer := done + {b};
    if b.stability == Stable {
      assert b in longer;
      if b.id in texts && texts[b.id] != b.text {
        var a :| a in done && a.stability == Stable && a.id == b.id && a.text == texts[b.id];
        assert a in longer && Clash(a, b);
      }
    }
  }

  // ---------------------------------------------------------------- the pass

  /** What the pass has found so far besides problems. */
  datatype Seen = Seen(texts: map<string, string>, stableDecision: bool, volatileDecision: bool, noise: bool)

  ghost predicate Follows(done: set<Block>, seen: Seen, changed: bool) {
    && Tracks(done, seen.texts, changed)
    && (seen.stableDecision <==> Any(done, StableDecision))
    && (seen.volatileDecision <==> Any(done, VolatileDecision))
    && (seen.noise <==> Any(done, Noise))
  }

  function Notice(seen: Seen, b: Block): Seen {
    Seen(if b.stability == Stable then seen.texts[b.id := b.text] else seen.texts,
         seen.stableDecision || StableDecision(b), seen.volatileDecision || VolatileDecision(b),
         seen.noise || Noise(b))
  }

  /** A stable block that says something else than the one of its id before it. */
  predicate Differs(seen: Seen, b: Block) {
    b.stability == Stable && b.id in seen.texts && seen.texts[b.id] != b.text
  }

  function NoticeAll(seen: Seen, blocks: seq<Block>, n: nat): Seen
    requires n <= |blocks|
  {
    if n == 0 then seen else Notice(NoticeAll(seen, blocks, n - 1), blocks[n - 1])
  }

  /** The changes reported for the first n blocks of a turn. */
  function Changes(turn: Turn, seen: Seen, n: nat): seq<Problem>
    requires n <= |turn.blocks|
  {
    if n == 0 then []
    else
      var before, b := Changes(turn, seen, n - 1), turn.blocks[n - 1];
      if Differs(NoticeAll(seen, turn.blocks, n - 1), b) then before + [StableChanged(turn.index, b.id)] else before
  }

  function SeenThrough(turns: seq<Turn>, n: nat): Seen
    requires n <= |turns|
  {
    if n == 0 then Seen(map[], false, false, false)
    else NoticeAll(SeenThrough(turns, n - 1), turns[n - 1].blocks, |turns[n - 1].blocks|)
  }

  function EarlyProblem(turn: Turn): seq<Problem> {
    if VolatileLast(turn.blocks) then [] else [VolatileTooEarly(turn.index)]
  }

  /** What is reported for the first n turns. */
  function TurnProblems(turns: seq<Turn>, n: nat): seq<Problem>
    requires n <= |turns|
  {
    if n == 0 then []
    else
      var turn := turns[n - 1];
      TurnProblems(turns, n - 1) + Changes(turn, SeenThrough(turns, n - 1), |turn.blocks|) + EarlyProblem(turn)
  }

  /** What is reported before and after them. */
  function Head(traj: Trajectory, catalog: set<string>): seq<Problem> {
    (if |traj.turns| < 3 then [TooFewTurns] else []) + (if traj.model in catalog then [] else [UnknownModel])
  }

  function Tail(seen: Seen): seq<Problem> {
    (if seen.stableDecision then [] else [NoStableDecision])
    + (if seen.volatileDecision then [] else [NoVolatileDecision])
    + (if seen.noise then [] else [NoNoise])
  }

  function Problems(traj: Trajectory, catalog: set<string>): seq<Problem> {
    Head(traj, catalog) + TurnProblems(traj.turns, |traj.turns|) + Tail(SeenThrough(traj.turns, |traj.turns|))
  }

  lemma FollowsOne(done: set<Block>, seen: Seen, changed: bool, b: Block)
    requires Follows(done, seen, changed)
    ensures Follows(done + {b}, Notice(seen, b), changed || Differs(seen, b))
  {
    TrackOne(done, seen.texts, changed, b);
    AnyAdd(done, b, StableDecision);
    AnyAdd(done, b, VolatileDecision);
    AnyAdd(done, b, Noise);
  }

  method SeeBlock(seen: Seen, b: Block) returns (next: Seen, clash: bool)
    ensures next == Notice(seen, b) && (clash <==> Differs(seen, b))
  {
    var decides := Decides(b);
    next, clash := seen, false;
    if b.stability == Stable {
      clash := b.id in seen.texts && seen.texts[b.id] != b.text;
      next := next.(texts := seen.texts[b.id := b.text]);
      if decides {
        next := next.(stableDecision := true);
      }
    }
    if b.stability == Volatile {
      if b.decisionRelevant && decides {
        next := next.(volatileDecision := true);
      }
      if !b.decisionRelevant && !decides {
        next := next.(noise := true);
      }
    }
  }

  /** Only changed-text problems for one turn. */
  predicate OnlyChanges(problems: seq<Problem>, turn: int) {
    forall p :: p in problems ==> p.StableChanged? && p.turn == turn
  }

  lemma BlocksOfNext(done: set<Block>, blocks: seq<Block>, i: nat)
    requires i < |blocks|
    ensures done + BlocksOf(blocks, i) + {blocks[i]} == done + BlocksOf(blocks, i + 1)
  {
  }

  lemma {:induction false} ChangesOnly(turn: Turn, seen: Seen, n: nat)
    requires n <= |turn.blocks|
    ensures OnlyChanges(Changes(turn, seen, n), turn.index)
  {
    if n == 0 {
    } else {
      ChangesOnly(turn, seen, n - 1);
    }
  }

  /** What has been noticed after n blocks of a turn. */
  lemma {:induction false} FollowsTurn(turn: Turn, seen: Seen, done: set<Block>, changed: bool, n: nat)
    requires n <= |turn.blocks| && Follows(done, seen, changed)
    ensures Follows(done + BlocksOf(turn.blocks, n), NoticeAll(seen, turn.blocks, n),
                    changed || Changes(turn, seen, n) != [])
  {
    if n == 0 {
      assert done + BlocksOf(turn.blocks, 0) == done;
    } else {
      var before, b := NoticeAll(seen, turn.blocks, n - 1), turn.blocks[n - 1];
      var sofar, already := done + BlocksOf(turn.blocks, n - 1), changed || Changes(turn, seen, n - 1) != [];
      FollowsTurn(turn, seen, done, changed, n - 1);
      FollowsOne(sofar, before, already, b);
      BlocksOfNext(done, turn.blocks, n - 1);
      assert (changed || Changes(turn, seen, n) != []) == (already || Differs(before, b));
    }
  }

  method ScanTurn(turn: Turn, seen: Seen) returns (next: Seen, changes: seq<Problem>, tooEarly: bool)
    ensures next == NoticeAll(seen, turn.blocks, |turn.blocks|)
    ensures changes == Changes(turn, seen, |turn.blocks|)
    ensures tooEarly <==> !VolatileLast(turn.blocks)
  {
    next, changes := seen, [];
    var lastNonvolatile, firstVolatile := -1, |turn.blocks|;
    for i := 0 to |turn.blocks|
      invariant Indices(turn.blocks, i, firstVolatile, lastNonvolatile)
      invariant next == NoticeAll(seen, turn.blocks, i) && changes == Changes(turn, seen, i)
    {
      var b := turn.blocks[i];
      firstVolatile, lastNonvolatile := SeeIndex(turn.blocks, i, firstVolatile, lastNonvolatile);
      var clash;
      next, clash := SeeBlock(next, b);
      if clash {
        changes := changes + [StableChanged(turn.index, b.id)];
      }
    }
    IndicesDecideOrder(turn.blocks, firstVolatile, lastNonvolatile);
    tooEarly := firstVolatile < lastNonvolatile;
  }

  method SeeIndex(blocks: seq<Block>, i: nat, firstVolatile: int, lastNonvolatile: int) returns (first: int, last: int)
    requires i < |blocks| && Indices(blocks, i, firstVolatile, lastNonvolatile)
    ensures Indices(blocks, i + 1, first, last)
  {
    first, last := firstVolatile, lastNonvolatile;
    if blocks[i].stability == Volatile {
      first := if i < first then i else first;
    } else {
      last := if i > last then i else last;
    }
  }

  /** The turns of the first n with a volatile block too early, by their index. */
  function EarlyTurns(turns: seq<Turn>, n: nat): set<int>
    requires n <= |turns|
  {
    if n == 0 then {}
    else if VolatileLast(turns[n - 1].blocks) then EarlyTurns(turns, n - 1)
    else EarlyTurns(turns, n - 1) + {turns[n - 1].index}
  }

  lemma {:induction false} EarlyTurnsAre(turns: seq<Turn>, n: nat, index: int)
    requires n <= |turns|
    ensures index in EarlyTurns(turns, n) <==>
      exists i :: 0 <= i < n && turns[i].index == index && !VolatileLast(turns[i].blocks)
  {
    if n == 0 {
    } else {
      EarlyTurnsAre(turns, n - 1, index);
    }
  }

  predicate AnyChange(problems: seq<Problem>) {
    exists p :: p in problems && p.StableChanged?
  }

  /** What the problems reported for the turns say, given whether a stable text changed. */
  ghost predicate Reports(problems: seq<Problem>, early: set<int>, changed: bool) {
    && (AnyChange(problems) <==> changed)
    && (forall index :: VolatileTooEarly(index) in problems <==> index in early)
    && (forall p :: p in problems ==> p.StableChanged? || p.VolatileTooEarly?)
  }

  lemma ReportChanges(problems: seq<Problem>, early: set<int>, changed: bool, changes: seq<Problem>, turn: int)
    requires Reports(problems, early, changed) && OnlyChanges(changes, turn)
    ensures Reports(problems + changes, early, changed || changes != [])
  {
    var longer := problems + changes;
    assert forall p :: p in longer <==> p in problems || p in changes;
    if changes != [] {
      assert changes[0] in longer && changes[0].StableChanged?;
    }
  }

  lemma ReportEarly(problems: seq<Problem>, early: set<int>, changed: bool, turn: int)
    requires Reports(problems, early, changed)
    ensures Reports(problems + [VolatileTooEarly(turn)], early + {turn}, changed)
  {
    var longer := problems + [VolatileTooEarly(turn)];
    assert forall p :: p in longer <==> p in problems || p == VolatileTooEarly(turn);
  }

  /** What has been noticed and reported after n turns. */
  lemma {:induction false} FollowsTurns(turns: seq<Turn>, n: nat) returns (changed: bool)
    requires n <= |turns|
    ensures Follows(Blocks(turns, n), SeenThrough(turns, n), changed)
    ensures Reports(TurnProblems(turns, n), EarlyTurns(turns, n), changed)
  {
    changed := false;
    if n > 0 {
      var before := FollowsTurns(turns, n - 1);
      var turn, seen := turns[n - 1], SeenThrough(turns, n - 1);
      var changes := Changes(turn, seen, |turn.blocks|);
      changed := before || changes != [];
      FollowsTurn(turn, seen, Blocks(turns, n - 1), before, |turn.blocks|);
      ChangesOnly(turn, seen, |turn.blocks|);
      ReportChanges(TurnProblems(turns, n - 1), EarlyTurns(turns, n - 1), before, changes, turn.index);
      if !VolatileLast(turn.blocks) {
        ReportEarly(TurnProblems(turns, n - 1) + changes, EarlyTurns(turns, n - 1), changed, turn.index);
      } else {
        assert TurnProblems(turns, n) == TurnProblems(turns, n - 1) + changes;
      }
    }
  }

  method ScanTurns(turns: seq<Turn>) returns (seen: Seen, problems: seq<Problem>)
    ensures seen == SeenThrough(turns, |turns|) && problems == TurnProblems(turns, |turns|)
  {
    seen, problems := Seen(map[], false, false, false), [];
    for n := 0 to |turns|
      invariant seen == SeenThrough(turns, n) && problems == TurnProblems(turns, n)
    {
      var changes, tooEarly;
      seen, changes, tooEarly := ScanTurn(turns[n], seen);
      problems := problems + changes;
      if tooEarly {
        problems := problems + [VolatileTooEarly(turns[n].index)];
      }
    }
  }

  /** Exactly the broken invariants are reported. */
  ghost predicate Exact(problems: seq<Problem>, traj: Trajectory, catalog: set<string>) {
    && (TooFewTurns in problems <==> |traj.turns| < 3)
    && (UnknownModel in problems <==> traj.model !in catalog)
    && (AnyChange(problems) <==> !StableAgree(AllBlocks(traj)))
    && (forall index :: VolatileTooEarly(index) in problems <==> index in EarlyTurns(traj.turns, |traj.turns|))
    && (NoStableDecision in problems <==> !Any(AllBlocks(traj), StableDecision))
    && (NoVolatileDecision in problems <==> !Any(AllBlocks(traj), VolatileDecision))
    && (NoNoise in problems <==> !Any(AllBlocks(traj), Noise))
  }

  lemma ProblemsExact(traj: Trajectory, catalog: set<string>)
    ensures Exact(Problems(traj, catalog), traj, catalog)
  {
    var seen := SeenThrough(traj.turns, |traj.turns|);
    var changed := FollowsTurns(traj.turns, |traj.turns|);
    TracksAgree(AllBlocks(traj), seen.texts, changed);
    Assembled(Head(traj, catalog), TurnProblems(traj.turns, |traj.turns|), Tail(seen), Problems(traj, catalog), traj,
              catalog, changed);
  }

  /** The list is exact, and so empty exactly for well-formed trajectories. */
  method Validate(traj: Trajectory, catalog: set<string>) returns (problems: seq<Problem>)
    ensures problems == Problems(traj, catalog)
    ensures problems == [] <==> WellFormed(traj, catalog)
    ensures Exact(problems, traj, catalog)
    ensures Documented(traj, catalog) ==> problems == []
    ensures (problems == [] <==> Documented(traj, catalog)) <==>
      (problems == [] ==> Any(AllBlocks(traj), ToolOutputDecision))
  {
    problems := Report(traj, catalog);
    ProblemsExact(traj, catalog);
    ExactEmpty(problems, traj, catalog);
    MeetsDocumentationIff(traj, catalog);
  }

  method Report(traj: Trajectory, catalog: set<string>) returns (problems: seq<Problem>)
    ensures problems == Problems(traj, catalog)
  {
    problems := [];
    if |traj.turns| < 3 {
      problems := problems + [TooFewTurns];
    }
    if traj.model !in catalog {
      problems := problems + [UnknownModel];
    }
    assert problems == Head(traj, catalog);
    var seen, body := ScanTurns(traj.turns);
    var missing := NotNoticed(seen);
    problems := problems + body + missing;
  }

  method NotNoticed(seen: Seen) returns (problems: seq<Problem>)
    ensures problems == Tail(seen)
  {
    problems := [];
    if !seen.stableDecision {
      problems := problems + [NoStableDecision];
    }
    if !seen.volatileDecision {
      problems := problems + [NoVolatileDecision];
    }
    if !seen.noise {
      problems := problems + [NoNoise];
    }
  }

  /** What the pass accepts is what is documented iff a well-formed trajectory has its volatile
      decision in a tool output; and where every volatile decision is one, there is no difference. */
  lemma MeetsDocumentationIff(traj: Trajectory, catalog: set<string>)
    ensures (WellFormed(traj, catalog) <==> Documented(traj, catalog)) <==>
            (WellFormed(traj, catalog) ==> Any(AllBlocks(traj), ToolOutputDecision))
    ensures Documented(traj, catalog) ==> WellFormed(traj, catalog)
    ensures (forall b :: b in AllBlocks(traj) && VolatileDecision(b) ==> b.kind == ToolOutput) ==>
            (WellFormed(traj, catalog) <==> Documented(traj, catalog))
  {
    ToolOutputDecides(AllBlocks(traj));
    if forall b :: b in AllBlocks(traj) && VolatileDecision(b) ==> b.kind == ToolOutput {
      if Any(AllBlocks(traj), VolatileDecision) {
        var b :| b in AllBlocks(traj) && VolatileDecision(b);
        assert ToolOutputDecision(b);
      }
    }
  }

  lemma Assembled(head: seq<Problem>, body: seq<Problem>, tail: seq<Problem>, problems: seq<Problem>, traj: Trajectory,
                  catalog: set<string>, changed: bool)
    requires problems == head + body + tail
    requires forall p :: p in head ==> p.TooFewTurns? || p.UnknownModel?
    requires (TooFewTurns in head <==> |traj.turns| < 3) && (UnknownModel in head <==> traj.model !in catalog)
    requires Reports(body, EarlyTurns(traj.turns, |traj.turns|), changed)
    requires (changed <==> !StableAgree(AllBlocks(traj)))
    requires forall p :: p in tail ==> p.NoStableDecision? || p.NoVolatileDecision? || p.NoNoise?
    requires NoStableDecision in tail <==> !Any(AllBlocks(traj), StableDecision)
    requires NoVolatileDecision in tail <==> !Any(AllBlocks(traj), VolatileDecision)
    requires NoNoise in tail <==> !Any(AllBlocks(traj), Noise)
    ensures Exact(problems, traj, catalog)
  {
    assert forall p :: p in problems <==> p in head || p in body || p in tail;
    assert AnyChange(problems) <==> AnyChange(body);
  }

  lemma {:induction false} NoEarlyTurns(turns: seq<Turn>, n: nat)
    requires n <= |turns|
    ensures EarlyTurns(turns, n) == {} <==> forall i :: 0 <= i < n ==> VolatileLast(turns[i].blocks)
  {
    if n == 0 {
    } else {
      NoEarlyTurns(turns, n - 1);
      if !VolatileLast(turns[n - 1].blocks) {
        assert turns[n - 1].index in EarlyTurns(turns, n);
      }
    }
  }

  lemma ExactEmpty(problems: seq<Problem>, traj: Trajectory, catalog: set<string>)
    requires Exact(problems, traj, catalog)
    ensures problems == [] <==> WellFormed(traj, catalog)
  {
    var early := EarlyTurns(traj.turns, |traj.turns|);
    NoEarlyTurns(traj.turns, |traj.turns|);
    if problems == [] {
      forall index ensures index !in early {
        assert VolatileTooEarly(index) !in problems;
      }
      assert early == {};
      assert !AnyChange(problems);
    } else {
      var p := problems[0];
      assert p in problems;
      if p.StableChanged? {
        assert AnyChange(problems);
      } else if p.VolatileTooEarly? {
        assert p.turn in early;
      }
    }
  }

  /** The documented fifth invariant asks for a tool output; any volatile block will do. */
  lemma DecisionNeedNotBeToolOutput(catalog: set<string>, model: string)
    requires model in catalog
    ensures exists traj :: WellFormed(traj, catalog) && !Documented(traj, catalog)
  {
    var prefix := Block("s", System, MARKER, Stable, false);
    var asked := Block("u", User, MARKER, Volatile, true);
    var noise := Block("n", User, "", Volatile, false);
    var blocks := [prefix, asked, noise];
    var traj := Trajectory(model, [Turn(0, blocks), Turn(1, blocks), Turn(2, blocks)]);
    assert MARKER[0..][..|MARKER|] == MARKER;
    assert Decides(prefix) && Decides(asked) && !Decides(noise);
    forall b ensures b in AllBlocks(traj) <==> b in blocks {
      BlocksAre(traj.turns, 3, b);
      assert traj.turns[0].blocks == blocks;
    }
    assert Any(AllBlocks(traj), StableDecision) by {
      assert prefix in blocks && StableDecision(prefix);
    }
    assert Any(AllBlocks(traj), VolatileDecision) by {
      assert asked in blocks && VolatileDecision(asked);
    }
    assert Any(AllBlocks(traj), Noise) by {
      assert noise in blocks && Noise(noise);
    }
    assert WellFormed(traj, catalog);
  }
}
