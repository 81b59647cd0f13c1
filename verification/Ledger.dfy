/**
  The ledger of final file states (distil/artifacts.py, `Ledger`, `build_ledger`, `score`): within a
  turn the strongest operation on a path wins, across turns the later turn does.
*/
module Ledger {
  import opened Wrappers
  import opened OpWindows

  /** What one turn asserts, in the order it was found. */
  type Turn = seq<(string, Op)>

  type FileState = map<string, Op>

  function Strength(op: Op): nat {
    match op
    case READ => 0
    case CREATE => 1
    case MODIFY => 2
    case DELETE => 3
  }

  function Strengthen(state: FileState, path: string, op: Op): FileState {
    if path !in state || Strength(op) >= Strength(state[path]) then state[path := op] else state
  }

  /** Fold of the first n assertions of a turn. */
  function PerTurn(turn: Turn, n: nat): FileState
    requires n <= |turn|
  {
    if n == 0 then map[] else Strengthen(PerTurn(turn, n - 1), turn[n - 1].0, turn[n - 1].1)
  }

  /** Fold of the first n turns. */
  function Fold(turns: seq<Turn>, n: nat): FileState
    requires n <= |turns|
  {
    if n == 0 then map[] else Fold(turns, n - 1) + PerTurn(turns[n - 1], |turns[n - 1]|)
  }

  class StateLedger {
    var state: FileState

    constructor ()
      ensures state == map[]
    {
      state := map[];
    }

    /** Within a turn: the strongest operation wins. */
    method Apply(path: string, op: Op)
      modifies this
      ensures state == Strengthen(old(state), path, op)
    {
      if path !in state || Strength(op) >= Strength(state[path]) {
        state := state[path := op];
      }
    }

    /** Across turns: the later one wins. */
    method ApplyTurn(path: string, op: Op)
      modifies this
      ensures state == old(state)[path := op]
    {
      state := state[path := op];
    }
  }

  /** A turn's fold is applied path by path, in whatever order. */
  method ApplyAll(ledger: StateLedger, perTurn: FileState)
    modifies ledger
    ensures ledger.state == old(ledger.state) + perTurn
  {
    var todo := perTurn.Keys;
    while todo != {}
      invariant todo <= perTurn.Keys
      invariant ledger.state == old(ledger.state) + map p | p in perTurn && p !in todo :: perTurn[p]
      decreases |todo|
    {
      var path :| path in todo;
      ledger.ApplyTurn(path, perTurn[path]);
      todo := todo - {path};
    }
  }

  method BuildLedger(turns: seq<Turn>) returns (ledger: StateLedger)
    ensures fresh(ledger) && ledger.state == Fold(turns, |turns|)
  {
    ledger := new StateLedger();
    for i := 0 to |turns|
      invariant fresh(ledger) && ledger.state == Fold(turns, i)
    {
      var turn := turns[i];
      var perTurn: FileState := map[];
      for k := 0 to |turn|
        invariant perTurn == PerTurn(turn, k)
      {
        var (path, op) := turn[k];
        if path !in perTurn || Strength(op) >= Strength(perTurn[path]) {
          perTurn := perTurn[path := op];
        }
      }
      ApplyAll(ledger, perTurn);
    }
  }

  // ---------------------------------------------------------------- what the fold means

  predicate Mentions(turn: Turn, path: string) {
    exists k :: 0 <= k < |turn| && turn[k].0 == path
  }

  /** op is asserted of path and nothing stronger is. */
  predicate StrongestIn(turn: Turn, path: string, op: Op) {
    && (exists k :: 0 <= k < |turn| && turn[k] == (path, op))
    && forall k :: 0 <= k < |turn| && turn[k].0 == path ==> Strength(turn[k].1) <= Strength(op)
  }

  lemma {:induction false} PerTurnIsStrongest(turn: Turn, n: nat, path: string)
    requires n <= |turn|
    ensures path in PerTurn(turn, n) <==> Mentions(turn[..n], path)
    ensures path in PerTurn(turn, n) ==> StrongestIn(turn[..n], path, PerTurn(turn, n)[path])
  {
    if n == 0 {
    } else {
      PerTurnIsStrongest(turn, n - 1, path);
      var shorter, longer := turn[..n - 1], turn[..n];
      assert longer == shorter + [turn[n - 1]];
      if Mentions(shorter, path) {
        var k :| 0 <= k < |shorter| && shorter[k].0 == path;
        assert longer[k].0 == path;
      }
      if path in PerTurn(turn, n - 1) {
        var k :| 0 <= k < |shorter| && shorter[k] == (path, PerTurn(turn, n - 1)[path]);
        assert longer[k] == shorter[k];
      }
      if turn[n - 1].0 == path {
        assert longer[n - 1] == turn[n - 1];
      }
    }
  }

  lemma StrongestUnique(turn: Turn, path: string, a: Op, b: Op)
    requires StrongestIn(turn, path, a) && StrongestIn(turn, path, b)
    ensures a == b
  {
  }

  /** Index of the last of the first n turns that mentions path; -1 when none does. */
  function LastMention(turns: seq<Turn>, n: nat, path: string): (i: int)
    requires n <= |turns|
    ensures -1 <= i < n
    ensures i >= 0 ==> Mentions(turns[i], path)
    ensures forall j :: i < j < n ==> !Mentions(turns[j], path)
  {
    if n == 0 then -1 else if Mentions(turns[n - 1], path) then n - 1 else LastMention(turns, n - 1, path)
  }

  /** A path's final state is the strongest operation in the last turn that mentions it; a path no
      turn mentions has none. */
  lemma {:induction false} FinalStateIs(turns: seq<Turn>, n: nat, path: string)
    requires n <= |turns|
    ensures var i := LastMention(turns, n, path);
      && (path in Fold(turns, n) <==> i >= 0)
      && (i >= 0 ==> StrongestIn(turns[i], path, Fold(turns, n)[path]))
  {
    if n == 0 {
    } else {
      FinalStateIs(turns, n - 1, path);
      var turn := turns[n - 1];
      PerTurnIsStrongest(turn, |turn|, path);
      assert turn[..|turn|] == turn;
    }
  }

  ghost predicate SameMembers(a: Turn, b: Turn) {
    forall x :: x in a <==> x in b
  }

  lemma PerTurnAt(a: Turn, b: Turn, path: string)
    requires SameMembers(a, b) && path in PerTurn(a, |a|)
    ensures path in PerTurn(b, |b|) && PerTurn(a, |a|)[path] == PerTurn(b, |b|)[path]
  {
    PerTurnIsStrongest(a, |a|, path);
    PerTurnIsStrongest(b, |b|, path);
    assert a[..|a|] == a && b[..|b|] == b;
    MentionsMember(a, b, path);
    StrongestOfMembers(a, b, path, PerTurn(a, |a|)[path]);
    StrongestUnique(b, path, PerTurn(a, |a|)[path], PerTurn(b, |b|)[path]);
  }

  /** Within a turn neither order nor repetition of the assertions matters. */
  lemma PerTurnOrderFree(a: Turn, b: Turn)
    requires SameMembers(a, b)
    ensures PerTurn(a, |a|) == PerTurn(b, |b|)
  {
    forall path | path in PerTurn(a, |a|)
      ensures path in PerTurn(b, |b|) && PerTurn(a, |a|)[path] == PerTurn(b, |b|)[path]
    {
      PerTurnAt(a, b, path);
    }
    forall path | path in PerTurn(b, |b|) ensures path in PerTurn(a, |a|) {
      PerTurnAt(b, a, path);
    }
  }

  /** So neither does it matter for the ledger of a whole trajectory. */
  lemma {:induction false} FoldOrderFree(a: seq<Turn>, b: seq<Turn>, n: nat)
    requires n <= |a| && n <= |b| && forall i :: 0 <= i < n ==> SameMembers(a[i], b[i])
    ensures Fold(a, n) == Fold(b, n)
  {
    if n == 0 {
    } else {
      FoldOrderFree(a, b, n - 1);
      PerTurnOrderFree(a[n - 1], b[n - 1]);
    }
  }

  lemma MentionsMember(a: Turn, b: Turn, path: string)
    requires SameMembers(a, b) && Mentions(a, path)
    ensures Mentions(b, path)
  {
    var k :| 0 <= k < |a| && a[k].0 == path;
    assert a[k] in b;
  }

  lemma StrongestOfMembers(a: Turn, b: Turn, path: string, op: Op)
    requires SameMembers(a, b) && StrongestIn(a, path, op)
    ensures StrongestIn(b, path, op)
  {
    assert (path, op) in b;
    forall k | 0 <= k < |b| && b[k].0 == path ensures Strength(b[k].1) <= Strength(op) {
      assert b[k] in a;
    }
  }

  lemma {:induction false} FoldPrefix(a: seq<Turn>, b: seq<Turn>, n: nat)
    requires n <= |a| && a <= b
    ensures Fold(a, n) == Fold(b, n)
  {
    if n == 0 {
    } else {
      FoldPrefix(a, b, n - 1);
    }
  }

  lemma Override(x: FileState, y: FileState, z: FileState)
    ensures (x + y) + z == x + (y + z)
  {
  }

  /** Folding two trajectories one after the other is the second ledger overriding the first. */
  lemma {:induction false} FoldConcat(a: seq<Turn>, b: seq<Turn>, n: nat)
    requires n <= |b|
    ensures Fold(a + b, |a| + n) == Fold(a, |a|) + Fold(b, n)
  {
    if n == 0 {
      FoldPrefix(a, a + b, |a|);
    } else {
      FoldConcat(a, b, n - 1);
      assert (a + b)[|a| + n - 1] == b[n - 1];
      Override(Fold(a, |a|), Fold(b, n - 1), PerTurn(b[n - 1], |b[n - 1]|));
    }
  }

  // ---------------------------------------------------------------- scoring

  datatype StateProbe = StateProbe(total: nat, exact: nat, stale: nat, lost: nat)

  function ExactPaths(truth: FileState, seen: FileState): set<string> {
    set p | p in truth && p in seen && truth[p] == seen[p]
  }

  function StalePaths(truth: FileState, seen: FileState): set<string> {
    set p | p in truth && p in seen && truth[p] != seen[p]
  }

  function LostPaths(truth: FileState, seen: FileState): set<string> {
    set p | p in truth && p !in seen
  }

  lemma PathsPartition(truth: FileState, seen: FileState)
    ensures |ExactPaths(truth, seen)| + |StalePaths(truth, seen)| + |LostPaths(truth, seen)| == |truth|
  {
    var e, s, l := ExactPaths(truth, seen), StalePaths(truth, seen), LostPaths(truth, seen);
    assert e + s + l == truth.Keys;
    assert |e + s| == |e| + |s|;
    assert |e + s + l| == |e + s| + |l|;
  }

  /** The counters after the paths in done have been compared. */
  function Tally(truth: FileState, seen: FileState, done: set<string>): StateProbe {
    StateProbe(|truth|, |ExactPaths(truth, seen) * done|, |StalePaths(truth, seen) * done|,
      |LostPaths(truth, seen) * done|)
  }

  lemma TallyStep(truth: FileState, seen: FileState, todo: set<string>, p: string)
    requires p in todo && todo <= truth.Keys
    ensures Tally(truth, seen, truth.Keys - (todo - {p})) ==
            Graded(Tally(truth, seen, truth.Keys - todo), truth[p], Get(seen, p))
  {
    var done := truth.Keys - todo;
    assert truth.Keys - (todo - {p}) == done + {p};
    CountOne(ExactPaths(truth, seen), done, p);
    CountOne(StalePaths(truth, seen), done, p);
    CountOne(LostPaths(truth, seen), done, p);
  }

  lemma CountOne(s: set<string>, done: set<string>, p: string)
    requires p !in done
    ensures |s * (done + {p})| == |s * done| + if p in s then 1 else 0
  {
    if p in s {
      assert s * (done + {p}) == s * done + {p};
    } else {
      assert s * (done + {p}) == s * done;
    }
  }

  lemma TallyStarts(truth: FileState, seen: FileState)
    ensures Tally(truth, seen, truth.Keys - truth.Keys) == StateProbe(|truth|, 0, 0, 0)
  {
    assert truth.Keys - truth.Keys == {};
    assert ExactPaths(truth, seen) * {} == StalePaths(truth, seen) * {} == LostPaths(truth, seen) * {} == {};
  }

  lemma TallyEnds(truth: FileState, seen: FileState)
    ensures Tally(truth, seen, truth.Keys - {}) ==
      StateProbe(|truth|, |ExactPaths(truth, seen)|, |StalePaths(truth, seen)|, |LostPaths(truth, seen)|)
  {
    assert ExactPaths(truth, seen) * (truth.Keys - {}) == ExactPaths(truth, seen);
    assert StalePaths(truth, seen) * (truth.Keys - {}) == StalePaths(truth, seen);
    assert LostPaths(truth, seen) * (truth.Keys - {}) == LostPaths(truth, seen);
  }

  /** How one path of the original fares. */
  function Graded(probe: StateProbe, op: Op, got: Option<Op>): StateProbe {
    if got.None? then probe.(lost := probe.lost + 1)
    else if got.value == op then probe.(exact := probe.exact + 1)
    else probe.(stale := probe.stale + 1)
  }

  method ScoreStates(truth: FileState, seen: FileState) returns (probe: StateProbe)
    ensures probe == StateProbe(|truth|, |ExactPaths(truth, seen)|, |StalePaths(truth, seen)|, |LostPaths(truth, seen)|)
    ensures probe.exact + probe.stale + probe.lost == probe.total
  {
    probe := StateProbe(|truth|, 0, 0, 0);
    var todo := truth.Keys;
    TallyStarts(truth, seen);
    while todo != {}
      invariant todo <= truth.Keys
      invariant probe == Tally(truth, seen, truth.Keys - todo)
      decreases todo
    {
      var p :| p in todo;
      TallyStep(truth, seen, todo, p);
      probe := Graded(probe, truth[p], Get(seen, p));
      todo := todo - {p};
    }
    TallyEnds(truth, seen);
    PathsPartition(truth, seen);
  }

  method Score(original: seq<Turn>, compressed: seq<Turn>) returns (probe: StateProbe)
    ensures var truth, seen := Fold(original, |original|), Fold(compressed, |compressed|);
      probe == StateProbe(|truth|, |ExactPaths(truth, seen)|, |StalePaths(truth, seen)|, |LostPaths(truth, seen)|)
    ensures probe.exact + probe.stale + probe.lost == probe.total
    ensures original == compressed ==> probe.exact == probe.total
  {
    var truth := BuildLedger(original);
    var seen := BuildLedger(compressed);
    probe := ScoreStates(truth.state, seen.state);
    PerfectIff(truth.state, seen.state);
  }

  lemma NoneIff(s: set<string>)
    ensures |s| == 0 <==> forall p :: p !in s
  {
    if |s| != 0 {
      var p :| p in s;
    }
  }

  /** Nothing is lost exactly when every original path is known still; nothing is stale exactly when
      every path that is known still has its original state. */
  lemma LossesIff(truth: FileState, seen: FileState)
    ensures |LostPaths(truth, seen)| == 0 <==> forall p :: p in truth ==> p in seen
    ensures |StalePaths(truth, seen)| == 0 <==> forall p :: p in truth && p in seen ==> seen[p] == truth[p]
  {
    NoneIff(LostPaths(truth, seen));
    NoneIff(StalePaths(truth, seen));
    forall p ensures p in LostPaths(truth, seen) <==> p in truth && p !in seen {
    }
    forall p ensures p in StalePaths(truth, seen) <==> p in truth && p in seen && seen[p] != truth[p] {
    }
  }

  /** The score is perfect exactly when every original state survives as it was. */
  lemma PerfectIff(truth: FileState, seen: FileState)
    ensures |ExactPaths(truth, seen)| == |truth| <==> forall p :: p in truth ==> p in seen && seen[p] == truth[p]
  {
    var e := ExactPaths(truth, seen);
    PathsPartition(truth, seen);
    if |e| == |truth| {
      forall p | p in truth ensures p in seen && seen[p] == truth[p] {
        if p in StalePaths(truth, seen) {
          assert false;
        }
        if p in LostPaths(truth, seen) {
          assert false;
        }
      }
    }
    if forall p :: p in truth ==> p in seen && seen[p] == truth[p] {
      assert e == truth.Keys;
    }
  }
}
