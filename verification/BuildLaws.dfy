/**
  What the keys of the memo table tell apart, and what a record of the matrix says, in terms of the
  stored answers (benchmarks/prove.py, `_compose_key` and `build_matrix`).
*/
module BuildLaws {
  import opened Wrappers
  import opened DecisionCache
  import opened MatrixBuild

  // ---------------------------------------------------------------- keys

  /** The key of a context, of what can be restored from it if anything can, and of the draw. */
  lemma KeyIs<B>(keyer: Keyer<B>, blocks: B, restore: Restore, variant: string)
    requires restore != map[] && variant != ""
    ensures ComposeKey(keyer, Request(blocks, None, "")) == keyer.blocksKey(blocks)
    ensures ComposeKey(keyer, Request(blocks, Some(map[]), "")) == keyer.blocksKey(blocks)
    ensures ComposeKey(keyer, Request(blocks, Some(restore), "")) ==
            keyer.blocksKey(blocks) + ":" + keyer.restoreKey(restore.Keys)
    ensures ComposeKey(keyer, Request(blocks, None, variant)) == keyer.blocksKey(blocks) + ":v=" + variant
    ensures ComposeKey(keyer, Request(blocks, Some(restore), variant)) ==
            keyer.blocksKey(blocks) + ":" + keyer.restoreKey(restore.Keys) + ":v=" + variant
  {
  }

  lemma SamePrefix(a: string, x: string, y: string)
    ensures a + x == a + y <==> x == y
  {
    if a + x == a + y {
      assert (a + x)[|a|..] == x && (a + y)[|a|..] == y;
    }
  }

  /** Two questions about one context, and of one draw, share a slot exactly when what can be restored
      has the same keys, by their hash. */
  lemma SameSlotIff<B>(keyer: Keyer<B>, blocks: B, r: Restore, s: Restore)
    requires r != map[] && s != map[]
    ensures ComposeKey(keyer, Request(blocks, Some(r), "")) == ComposeKey(keyer, Request(blocks, Some(s), "")) <==>
            keyer.restoreKey(r.Keys) == keyer.restoreKey(s.Keys)
    ensures ComposeKey(keyer, Request(blocks, Some(r), "")) != ComposeKey(keyer, Request(blocks, None, ""))
  {
    var k := keyer.blocksKey(blocks) + ":";
    SamePrefix(k, keyer.restoreKey(r.Keys), keyer.restoreKey(s.Keys));
    assert |k + keyer.restoreKey(r.Keys)| > |keyer.blocksKey(blocks)|;
  }

  // ---------------------------------------------------------------- rows and records

  /** What the store answers to a question. */
  predicate Answers<B>(keyer: Keyer<B>, store: Store, r: Request<B>, d: string) {
    ComposeKey(keyer, r) in store && store[ComposeKey(keyer, r)] == d
  }

  /** What can be restored from a turn, in a run that lets the model expand. */
  function RestoreOf<B>(settings: Settings<B>, turn: Turn<B>): Option<Restore> {
    if settings.expand then Some(settings.buildRestore(turn.blocks)) else None
  }

  /** A row: the answer to the turn's own context and its size, the reference answer if there is one, and,
      in a run with the control, whether the second draw differs from the first. */
  lemma RowSays<B>(settings: Settings<B>, keyer: Keyer<B>, store: Store, gold: Gold, tid: string, turn: Turn<B>,
                   base: string, again: string)
    requires Answers(keyer, store, Request(turn.blocks, RestoreOf(settings, turn), ""), base)
    requires settings.aaControl ==> Answers(keyer, store, Request(turn.blocks, RestoreOf(settings, turn), "aa"), again)
    ensures var row := RowOf(settings, keyer, store, PlanTurn(settings, gold, tid, turn));
      && row.base == base && row.baseTokens == settings.tokens(turn.blocks)
      && row.gold == Get(gold, (tid, turn.index))
      && row.aaLoss == if settings.aaControl then Some(if again == base then 0 else 1) else None
  {
  }

  /** Entry i is the last with its id. */
  predicate LastEntry<B>(entries: seq<Entry<B>>, i: nat) {
    i < |entries| && forall j :: i < j < |entries| ==> entries[j].tid != entries[i].tid
  }

  lemma {:induction false} PlanAt<B>(settings: Settings<B>, gold: Gold, entries: seq<Entry<B>>, n: nat, i: nat)
    requires i < n <= |entries|
    ensures Plan(settings, gold, entries, n)[i] == PlanEntry(settings, gold, entries[i])
  {
    if i < n - 1 {
      PlanAt(settings, gold, entries, n - 1, i);
    }
  }

  lemma {:induction false} MatrixKeys<B>(settings: Settings<B>, keyer: Keyer<B>, store: Store, plan: seq<Planned<B>>,
                                         n: nat, tid: string)
    requires n <= |plan|
    ensures tid in MatrixOf(settings, keyer, store, plan, n) <==> exists i :: 0 <= i < n && plan[i].tid == tid
  {
    if n == 0 {
    } else {
      MatrixKeys(settings, keyer, store, plan, n - 1, tid);
    }
  }

  lemma {:induction false} MatrixLast<B>(settings: Settings<B>, keyer: Keyer<B>, store: Store, plan: seq<Planned<B>>,
                                         n: nat, i: nat)
    requires i < n <= |plan| && forall j :: i < j < n ==> plan[j].tid != plan[i].tid
    ensures var m := MatrixOf(settings, keyer, store, plan, n);
      plan[i].tid in m && m[plan[i].tid] == RecordOf(settings, keyer, store, plan[i])
  {
    if i < n - 1 {
      MatrixLast(settings, keyer, store, plan, n - 1, i);
    }
  }

  lemma {:induction false} RowAt<B>(settings: Settings<B>, keyer: Keyer<B>, store: Store,
                                    turns: seq<PlannedTurn<B>>, n: nat, t: nat)
    requires t < n <= |turns|
    ensures |RowsOf(settings, keyer, store, turns, n)| == n
    ensures RowsOf(settings, keyer, store, turns, n)[t] == RowOf(settings, keyer, store, turns[t])
  {
    RowCount(settings, keyer, store, turns, n - 1);
    if t < n - 1 {
      RowAt(settings, keyer, store, turns, n - 1, t);
    }
  }

  lemma {:induction false} RowCount<B>(settings: Settings<B>, keyer: Keyer<B>, store: Store,
                                       turns: seq<PlannedTurn<B>>, n: nat)
    requires n <= |turns|
    ensures |RowsOf(settings, keyer, store, turns, n)| == n
  {
    if n == 0 {
    } else {
      RowCount(settings, keyer, store, turns, n - 1);
    }
  }

  lemma {:induction false} TurnAt<B>(settings: Settings<B>, gold: Gold, e: Entry<B>, n: nat, t: nat)
    requires t < n <= |e.turns|
    ensures PlanTurns(settings, gold, e, n)[t] == PlanTurn(settings, gold, e.tid, e.turns[t])
  {
    if t < n - 1 {
      TurnAt(settings, gold, e, n - 1, t);
    }
  }

  /** For every run: the matrix has one record for each trajectory id, made of the last entry with it: its
      domain and success, and one row for each of its turns, in order. */
  lemma MatrixSays<B>(settings: Settings<B>, keyer: Keyer<B>, store: Store, gold: Gold, entries: seq<Entry<B>>,
                      i: nat, t: nat)
    requires LastEntry(entries, i) && t < |entries[i].turns|
    ensures var m := MatrixOf(settings, keyer, store, Plan(settings, gold, entries, |entries|), |entries|);
      var e := entries[i];
      && e.tid in m && m[e.tid].domain == e.domain && m[e.tid].success == e.success
      && |m[e.tid].turns| == |e.turns|
      && m[e.tid].turns[t] == RowOf(settings, keyer, store, PlanTurn(settings, gold, e.tid, e.turns[t]))
  {
    var plan, e := Plan(settings, gold, entries, |entries|), entries[i];
    forall j | 0 <= j < |entries| ensures plan[j] == PlanEntry(settings, gold, entries[j]) {
      PlanAt(settings, gold, entries, |entries|, j);
    }
    MatrixLast(settings, keyer, store, plan, |entries|, i);
    var turns := PlanTurns(settings, gold, e, |e.turns|);
    RowAt(settings, keyer, store, turns, |e.turns|, t);
    TurnAt(settings, gold, e, |e.turns|, t);
  }

  lemma MatrixKeysAre<B>(settings: Settings<B>, keyer: Keyer<B>, store: Store, gold: Gold, entries: seq<Entry<B>>,
                         tid: string)
    ensures tid in MatrixOf(settings, keyer, store, Plan(settings, gold, entries, |entries|), |entries|) <==>
            exists i :: 0 <= i < |entries| && entries[i].tid == tid
  {
    var plan := Plan(settings, gold, entries, |entries|);
    forall j | 0 <= j < |entries| ensures plan[j].tid == entries[j].tid {
      PlanAt(settings, gold, entries, |entries|, j);
    }
    MatrixKeys(settings, keyer, store, plan, |entries|, tid);
  }
}
