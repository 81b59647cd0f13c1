/**
  The validator's verdict spelled out, block by block (distil/corpus.py, `validate`).
*/
module CorpusLaws {
  import opened Corpus

  /** The text contains the marker. */
  ghost predicate Marked(text: string) {
    exists before: string, after: string :: text == before + "DECISION:" + after
  }

  lemma MarkerAt(text: string, i: nat)
    requires i + 9 <= |text| && text[i..][..9] == "DECISION:"
    ensures Marked(text)
  {
    var before, after := text[..i], text[i + 9..];
    assert text == before + text[i..][..9] + after;
  }

  lemma MarkedAt(text: string, before: string, after: string)
    requires text == before + "DECISION:" + after
    ensures |before| + 9 <= |text| && text[|before|..][..9] == "DECISION:"
  {
    assert text == before + ("DECISION:" + after);
    assert text[|before|..] == "DECISION:" + after;
  }

  lemma DecidesIff(b: Block)
    ensures Decides(b) <==> Marked(b.text)
  {
    if Decides(b) {
      var i :| 0 <= i <= |b.text| - |MARKER| && b.text[i..][..|MARKER|] == MARKER;
      MarkerAt(b.text, i);
    }
    if Marked(b.text) {
      var before: string, after: string :| b.text == before + "DECISION:" + after;
      MarkedAt(b.text, before, after);
    }
  }

  predicate InTrajectory(traj: Trajectory, b: Block) {
    exists t :: 0 <= t < |traj.turns| && b in traj.turns[t].blocks
  }

  /** In every turn no volatile block comes before one that is not. */
  predicate VolatileComeLast(traj: Trajectory) {
    forall t, i, j :: 0 <= t < |traj.turns| && 0 <= i < j < |traj.turns[t].blocks| ==>
      (traj.turns[t].blocks[i].stability == Volatile ==> traj.turns[t].blocks[j].stability == Volatile)
  }

  /** Stable blocks with one id have one text. */
  ghost predicate StableTexts(traj: Trajectory) {
    forall a, b :: InTrajectory(traj, a) && InTrajectory(traj, b) ==>
      (a.stability == Stable && b.stability == Stable && a.id == b.id ==> a.text == b.text)
  }

  /** Some block of the trajectory is of that stability, relevance and marking. */
  ghost predicate HasBlock(traj: Trajectory, stability: Stability, relevant: bool, marked: bool) {
    exists b :: InTrajectory(traj, b) && b.stability == stability && b.decisionRelevant == relevant
      && (Marked(b.text) <==> marked)
  }

  lemma AllBlocksAre(traj: Trajectory)
    ensures forall b :: b in AllBlocks(traj) <==> InTrajectory(traj, b)
  {
    forall b ensures b in AllBlocks(traj) <==> InTrajectory(traj, b) {
      BlocksAre(traj.turns, |traj.turns|, b);
    }
  }

  lemma MarkedIff(traj: Trajectory)
    ensures Any(AllBlocks(traj), StableDecision) <==>
            HasBlock(traj, Stable, true, true) || HasBlock(traj, Stable, false, true)
    ensures Any(AllBlocks(traj), VolatileDecision) <==> HasBlock(traj, Volatile, true, true)
    ensures Any(AllBlocks(traj), Noise) <==> HasBlock(traj, Volatile, false, false)
  {
    AllBlocksAre(traj);
    forall b ensures Decides(b) <==> Marked(b.text) {
      DecidesIff(b);
    }
  }

  /** A trajectory is accepted exactly when it has at least three turns and a known model, no volatile
      block comes before another kind, stable blocks never change, some stable block carries the marker, some
      relevant volatile block does, and some irrelevant volatile block does not. */
  lemma AcceptedIff(traj: Trajectory, catalog: set<string>)
    ensures WellFormed(traj, catalog) <==>
      && |traj.turns| >= 3 && traj.model in catalog && VolatileComeLast(traj) && StableTexts(traj)
      && (HasBlock(traj, Stable, true, true) || HasBlock(traj, Stable, false, true))
      && HasBlock(traj, Volatile, true, true) && HasBlock(traj, Volatile, false, false)
  {
    MarkedIff(traj);
    StableTextsIff(traj);
    VolatileLastIff(traj);
  }

  lemma StableTextsIff(traj: Trajectory)
    ensures StableAgree(AllBlocks(traj)) <==> StableTexts(traj)
  {
    AllBlocksAre(traj);
    if StableTexts(traj) {
      forall a, b | a in AllBlocks(traj) && b in AllBlocks(traj) ensures !Clash(a, b) {
        assert InTrajectory(traj, a) && InTrajectory(traj, b);
      }
    }
    if StableAgree(AllBlocks(traj)) {
      forall a, b | InTrajectory(traj, a) && InTrajectory(traj, b) ensures !Clash(a, b) {
        assert a in AllBlocks(traj) && b in AllBlocks(traj);
      }
    }
  }

  lemma VolatileLastIff(traj: Trajectory)
    ensures (forall t :: 0 <= t < |traj.turns| ==> VolatileLast(traj.turns[t].blocks)) <==> VolatileComeLast(traj)
  {
    if VolatileComeLast(traj) {
      forall t | 0 <= t < |traj.turns| ensures VolatileLast(traj.turns[t].blocks) {
      }
    }
    if forall t :: 0 <= t < |traj.turns| ==> VolatileLast(traj.turns[t].blocks) {
      forall t, i, j | 0 <= t < |traj.turns| && 0 <= i < j < |traj.turns[t].blocks|
          && traj.turns[t].blocks[i].stability == Volatile
        ensures traj.turns[t].blocks[j].stability == Volatile
      {
        assert VolatileLast(traj.turns[t].blocks);
      }
    }
  }

  // ---------------------------------------------------------------- which changes are reported

  type Listing = seq<(int, Block)>

  function TurnListing(turn: Turn, n: nat): Listing
    requires n <= |turn.blocks|
  {
    seq(n, i requires 0 <= i < n => (turn.index, turn.blocks[i]))
  }

  /** The blocks of the first n turns in reading order, each with the index of its turn. */
  function Listed(turns: seq<Turn>, n: nat): Listing
    requires n <= |turns|
  {
    if n == 0 then [] else Listed(turns, n - 1) + TurnListing(turns[n - 1], |turns[n - 1].blocks|)
  }

  predicate StableAt(s: Listing, p: nat, id: string) {
    p < |s| && s[p].1.stability == Stable && s[p].1.id == id
  }

  /** Of the first n, the last stable block with this id. */
  predicate LastStable(s: Listing, n: nat, p: nat, id: string) {
    p < n <= |s| && StableAt(s, p, id) && forall m: nat :: p < m < n ==> !StableAt(s, m, id)
  }

  /** Block q is stable and says something else than the stable block of its id before it. */
  ghost predicate ChangedAt(s: Listing, q: nat) {
    && q < |s| && s[q].1.stability == Stable
    && exists p: nat :: LastStable(s, q, p, s[q].1.id) && s[p].1.text != s[q].1.text
  }

  ghost predicate SomeChange(s: Listing, k: int, id: string) {
    exists q: nat :: ChangedAt(s, q) && s[q].0 == k && s[q].1.id == id
  }

  /** The table holds the last text of every stable id. */
  ghost predicate HoldsLast(s: Listing, texts: map<string, string>) {
    && (forall id :: id in texts ==> exists p: nat :: LastStable(s, |s|, p, id) && s[p].1.text == texts[id])
    && (forall p: nat :: p < |s| && s[p].1.stability == Stable ==> s[p].1.id in texts)
  }

  lemma LastUnique(s: Listing, n: nat, p: nat, q: nat, id: string)
    requires LastStable(s, n, p, id) && LastStable(s, n, q, id)
    ensures p == q
  {
    assert StableAt(s, p, id) && StableAt(s, q, id);
  }

  lemma LastKept(s: Listing, e: (int, Block), n: nat, p: nat, id: string)
    requires n <= |s|
    ensures LastStable(s + [e], n, p, id) <==> LastStable(s, n, p, id)
  {
    forall m: nat | m < n ensures StableAt(s + [e], m, id) <==> StableAt(s, m, id) {
    }
  }

  lemma ChangedKept(s: Listing, e: (int, Block), q: nat)
    requires q < |s|
    ensures ChangedAt(s + [e], q) <==> ChangedAt(s, q)
  {
    forall p: nat ensures LastStable(s + [e], q, p, s[q].1.id) <==> LastStable(s, q, p, s[q].1.id) {
      LastKept(s, e, q, p, s[q].1.id);
    }
  }

  lemma SomeChangeNext(s: Listing, e: (int, Block), k: int, id: string)
    ensures SomeChange(s + [e], k, id) <==>
            SomeChange(s, k, id) || (ChangedAt(s + [e], |s|) && e.0 == k && e.1.id == id)
  {
    var longer := s + [e];
    if SomeChange(longer, k, id) {
      var q: nat :| ChangedAt(longer, q) && longer[q].0 == k && longer[q].1.id == id;
      if q < |s| {
        ChangedKept(s, e, q);
      }
    }
    if SomeChange(s, k, id) {
      var q: nat :| ChangedAt(s, q) && s[q].0 == k && s[q].1.id == id;
      ChangedKept(s, e, q);
      assert longer[q] == s[q];
    }
    assert longer[|s|] == e;
  }

  lemma DiffersIff(s: Listing, seen: Seen, e: (int, Block))
    requires HoldsLast(s, seen.texts)
    ensures Differs(seen, e.1) <==> ChangedAt(s + [e], |s|)
  {
    var longer, id := s + [e], e.1.id;
    forall p: nat ensures LastStable(longer, |s|, p, id) <==> LastStable(s, |s|, p, id) {
      LastKept(s, e, |s|, p, id);
    }
    if id in seen.texts {
      var p: nat :| LastStable(s, |s|, p, id) && s[p].1.text == seen.texts[id];
      forall q: nat | LastStable(s, |s|, q, id) ensures q == p {
        LastUnique(s, |s|, p, q, id);
      }
    }
  }

  lemma HoldsNext(s: Listing, seen: Seen, e: (int, Block))
    requires HoldsLast(s, seen.texts)
    ensures HoldsLast(s + [e], Notice(seen, e.1).texts)
  {
    var longer, texts := s + [e], Notice(seen, e.1).texts;
    forall id | id in texts
      ensures exists p: nat :: LastStable(longer, |longer|, p, id) && longer[p].1.text == texts[id]
    {
      if e.1.stability == Stable && e.1.id == id {
        assert LastStable(longer, |longer|, |s|, id);
      } else {
        var p: nat :| LastStable(s, |s|, p, id) && s[p].1.text == texts[id];
        LastKept(s, e, |s|, p, id);
        assert LastStable(longer, |longer|, p, id);
      }
    }
  }

  /** The problems report exactly the changes. */
  ghost predicate ReportsChanges(s: Listing, problems: seq<Problem>) {
    forall k: int, id: string :: StableChanged(k, id) in problems <==> SomeChange(s, k, id)
  }

  lemma OneBlockMore(s: Listing, seen: Seen, problems: seq<Problem>, turn: int, b: Block)
    requires HoldsLast(s, seen.texts) && ReportsChanges(s, problems)
    ensures HoldsLast(s + [(turn, b)], Notice(seen, b).texts)
    ensures var more := if Differs(seen, b) then problems + [StableChanged(turn, b.id)] else problems;
      ReportsChanges(s + [(turn, b)], more)
  {
    HoldsNext(s, seen, (turn, b));
    DiffersIff(s, seen, (turn, b));
    forall k: int, id: string
      ensures SomeChange(s + [(turn, b)], k, id) <==>
        StableChanged(k, id) in problems || (Differs(seen, b) && StableChanged(k, id) == StableChanged(turn, b.id))
    {
      SomeChangeNext(s, (turn, b), k, id);
    }
  }

  /** What is carried from block to block. */
  ghost predicate Tracked(s: Listing, seen: Seen, problems: seq<Problem>) {
    HoldsLast(s, seen.texts) && ReportsChanges(s, problems)
  }

  lemma TrackedNext(s: Listing, seen: Seen, problems: seq<Problem>, turn: int, b: Block, s': Listing,
                    problems': seq<Problem>)
    requires Tracked(s, seen, problems) && s' == s + [(turn, b)]
    requires problems' == if Differs(seen, b) then problems + [StableChanged(turn, b.id)] else problems
    ensures Tracked(s', Notice(seen, b), problems')
  {
    OneBlockMore(s, seen, problems, turn, b);
  }

  lemma TurnUnfolds(s: Listing, seen: Seen, problems: seq<Problem>, turn: Turn, n: nat)
    requires n < |turn.blocks|
    ensures var before, b := NoticeAll(seen, turn.blocks, n), turn.blocks[n];
      && NoticeAll(seen, turn.blocks, n + 1) == Notice(before, b)
      && s + TurnListing(turn, n + 1) == s + TurnListing(turn, n) + [(turn.index, b)]
      && problems + Changes(turn, seen, n + 1) ==
         if Differs(before, b) then problems + Changes(turn, seen, n) + [StableChanged(turn.index, b.id)]
         else problems + Changes(turn, seen, n)
  {
  }

  lemma {:induction false} OneTurnMore(s: Listing, seen: Seen, problems: seq<Problem>, turn: Turn, n: nat)
    requires n <= |turn.blocks| && Tracked(s, seen, problems)
    ensures Tracked(s + TurnListing(turn, n), NoticeAll(seen, turn.blocks, n), problems + Changes(turn, seen, n))
  {
    if n == 0 {
      assert s + TurnListing(turn, 0) == s && problems + Changes(turn, seen, 0) == problems;
    } else {
      OneTurnMore(s, seen, problems, turn, n - 1);
      TurnUnfolds(s, seen, problems, turn, n - 1);
      TrackedNext(s + TurnListing(turn, n - 1), NoticeAll(seen, turn.blocks, n - 1),
                  problems + Changes(turn, seen, n - 1), turn.index, turn.blocks[n - 1],
                  s + TurnListing(turn, n), problems + Changes(turn, seen, n));
    }
  }

  lemma NoChangeMore(s: Listing, problems: seq<Problem>, turn: Turn)
    requires ReportsChanges(s, problems)
    ensures ReportsChanges(s, problems + EarlyProblem(turn))
  {
  }

  /** A changed text is reported for a turn and an id exactly when in that turn a stable block with that id
      says something else than the last stable block of that id before it. */
  lemma {:induction false} ChangesAre(turns: seq<Turn>, n: nat)
    requires n <= |turns|
    ensures HoldsLast(Listed(turns, n), SeenThrough(turns, n).texts)
    ensures ReportsChanges(Listed(turns, n), TurnProblems(turns, n))
  {
    if n == 0 {
    } else {
      var s, seen, turn := Listed(turns, n - 1), SeenThrough(turns, n - 1), turns[n - 1];
      var problems := TurnProblems(turns, n - 1);
      ChangesAre(turns, n - 1);
      OneTurnMore(s, seen, problems, turn, |turn.blocks|);
      NoChangeMore(Listed(turns, n), problems + Changes(turn, seen, |turn.blocks|), turn);
    }
  }

  /** The same of the whole list of problems. */
  lemma ReportedIff(traj: Trajectory, catalog: set<string>, k: int, id: string)
    ensures StableChanged(k, id) in Problems(traj, catalog) <==> SomeChange(Listed(traj.turns, |traj.turns|), k, id)
  {
    ChangesAre(traj.turns, |traj.turns|);
  }
}
