/**
  The decision memo table and the three-phase matrix build on top of it (benchmarks/prove.py,
  `DecisionCache` and `build_matrix`).  The runner may answer the same question differently every
  time it is called: an answer depends on how many calls came before.
*/
module DecisionCache {
  import opened Wrappers

  type Restore = map<string, string>

  type Store = map<string, string>

  /** A question: a context, what could be restored from it, and which independent draw this is. */
  datatype Request<B> = Request(blocks: B, restore: Option<Restore>, variant: string)

  /** The two content hashes the key is composed from. */
  datatype Keyer<!B> = Keyer(blocksKey: B -> string, restoreKey: set<string> -> string)

  function ComposeKey<B>(keyer: Keyer<B>, r: Request<B>): string {
    var k := keyer.blocksKey(r.blocks);
    var k' :=
      if r.restore.Some? && r.restore.value != map[] then k + ":" + keyer.restoreKey(r.restore.value.Keys) else k;
    if r.variant != "" then k' + ":v=" + r.variant else k'
  }

  function KeysOf<B>(keyer: Keyer<B>, requests: seq<Request<B>>): (keys: seq<string>)
    ensures |keys| == |requests|
  {
    seq(|requests|, i requires 0 <= i < |requests| => ComposeKey(keyer, requests[i]))
  }

  /** The runner's answer to its n-th call. */
  type Runner<!B> = (nat, B, Option<Restore>) -> string

  // ---------------------------------------------------------------- which keys are pending

  function Members(keys: seq<string>, n: nat): set<string>
    requires n <= |keys|
  {
    if n == 0 then {} else Members(keys, n - 1) + {keys[n - 1]}
  }

  lemma {:induction false} MemberIff(keys: seq<string>, n: nat, k: string)
    requires n <= |keys|
    ensures k in Members(keys, n) <==> exists i :: 0 <= i < n && keys[i] == k
  {
    if n == 0 {
    } else {
      MemberIff(keys, n - 1, k);
    }
  }

  predicate IsNew(stored: set<string>, keys: seq<string>, i: nat)
    requires i < |keys|
  {
    keys[i] !in stored && keys[i] !in Members(keys, i)
  }

  /** Indices of the first occurrence of each key that is not stored, in order. */
  function Pending(stored: set<string>, keys: seq<string>, n: nat): (todo: seq<nat>)
    requires n <= |keys|
    ensures forall j :: 0 <= j < |todo| ==> todo[j] < n
  {
    if n == 0 then []
    else
      var todo := Pending(stored, keys, n - 1);
      if IsNew(stored, keys, n - 1) then todo + [n - 1] else todo
  }

  predicate Ascending(todo: seq<nat>) {
    forall i, j :: 0 <= i < j < |todo| ==> todo[i] < todo[j]
  }

  lemma {:induction false} PendingExactlyNew(stored: set<string>, keys: seq<string>, n: nat)
    requires n <= |keys|
    ensures Ascending(Pending(stored, keys, n))
    ensures forall i: nat :: i in Pending(stored, keys, n) <==> i < n && IsNew(stored, keys, i)
  {
    if n == 0 {
    } else {
      PendingExactlyNew(stored, keys, n - 1);
    }
  }

  lemma {:induction false} PendingCount(stored: set<string>, keys: seq<string>, n: nat)
    requires n <= |keys|
    ensures |Pending(stored, keys, n)| == |Members(keys, n) - stored|
  {
    if n == 0 {
    } else {
      PendingCount(stored, keys, n - 1);
      var before, k := Members(keys, n - 1) - stored, keys[n - 1];
      if IsNew(stored, keys, n - 1) {
        assert Members(keys, n) - stored == before + {k};
      } else {
        assert Members(keys, n) - stored == before;
      }
    }
  }

  // ---------------------------------------------------------------- asking one by one

  /** What is stored and how many calls were made. */
  datatype Progress = Progress(store: Store, calls: nat)

  function DecideOne<B>(runner: Runner<B>, p: Progress, r: Request<B>, k: string): Progress {
    if k in p.store then p else Progress(p.store[k := runner(p.calls, r.blocks, r.restore)], p.calls + 1)
  }

  /** The first n requests decided one at a time. */
  function DecideEach<B>(runner: Runner<B>, p: Progress, requests: seq<Request<B>>, keys: seq<string>, n: nat): Progress
    requires n <= |requests| == |keys|
  {
    if n == 0 then p else DecideOne(runner, DecideEach(runner, p, requests, keys, n - 1), requests[n - 1], keys[n - 1])
  }

  lemma {:induction false} DecideEachKeys<B>(runner: Runner<B>, p: Progress, requests: seq<Request<B>>,
                                             keys: seq<string>, n: nat)
    requires n <= |requests| == |keys|
    ensures DecideEach(runner, p, requests, keys, n).store.Keys == p.store.Keys + Members(keys, n)
  {
    if n == 0 {
    } else {
      DecideEachKeys(runner, p, requests, keys, n - 1);
    }
  }

  lemma DecideEachMeetsNew<B>(runner: Runner<B>, p: Progress, requests: seq<Request<B>>, keys: seq<string>, n: nat)
    requires n < |requests| == |keys|
    ensures keys[n] !in DecideEach(runner, p, requests, keys, n).store <==> IsNew(p.store.Keys, keys, n)
  {
    DecideEachKeys(runner, p, requests, keys, n);
  }

  lemma {:induction false} DecideEachCalls<B>(runner: Runner<B>, p: Progress, requests: seq<Request<B>>,
                                              keys: seq<string>, n: nat)
    requires n <= |requests| == |keys|
    ensures DecideEach(runner, p, requests, keys, n).calls == p.calls + |Pending(p.store.Keys, keys, n)|
  {
    if n == 0 {
    } else {
      DecideEachCalls(runner, p, requests, keys, n - 1);
      DecideEachMeetsNew(runner, p, requests, keys, n - 1);
    }
  }

  lemma {:induction false} DecideEachKeeps<B>(runner: Runner<B>, p: Progress, requests: seq<Request<B>>,
                                              keys: seq<string>, n: nat, k: string)
    requires n <= |requests| == |keys| && k in p.store
    ensures var store := DecideEach(runner, p, requests, keys, n).store;
      k in store && store[k] == p.store[k]
  {
    if n == 0 {
    } else {
      DecideEachKeeps(runner, p, requests, keys, n - 1, k);
    }
  }

  /** k was answered by call number c, which asked request i, whose key is k. */
  predicate AnsweredBy<B>(runner: Runner<B>, requests: seq<Request<B>>, keys: seq<string>, k: string, d: string,
                          i: nat, c: nat)
    requires |keys| == |requests|
  {
    i < |requests| && keys[i] == k && d == runner(c, requests[i].blocks, requests[i].restore)
  }

  /** k was answered by one of the calls numbered from first up to last. */
  ghost predicate AnsweredWithin<B>(runner: Runner<B>, requests: seq<Request<B>>, keys: seq<string>, k: string,
                                    d: string, first: nat, last: nat)
    requires |keys| == |requests|
  {
    exists i: nat, c: nat :: first <= c < last && AnsweredBy(runner, requests, keys, k, d, i, c)
  }

  lemma {:induction false} DecideEachAnswers<B>(runner: Runner<B>, p: Progress, requests: seq<Request<B>>,
                                                keys: seq<string>, n: nat, k: string)
    requires n <= |requests| == |keys|
    requires k !in p.store && k in DecideEach(runner, p, requests, keys, n).store
    ensures var done := DecideEach(runner, p, requests, keys, n);
      p.calls <= done.calls && AnsweredWithin(runner, requests, keys, k, done.store[k], p.calls, done.calls)
  {
    var q, done := DecideEach(runner, p, requests, keys, n - 1), DecideEach(runner, p, requests, keys, n);
    DecideEachCalls(runner, p, requests, keys, n - 1);
    if k in q.store {
      DecideEachAnswers(runner, p, requests, keys, n - 1, k);
      var i: nat, c: nat :| p.calls <= c < q.calls && AnsweredBy(runner, requests, keys, k, q.store[k], i, c);
      assert c < done.calls && AnsweredBy(runner, requests, keys, k, done.store[k], i, c);
    } else {
      assert AnsweredBy(runner, requests, keys, k, done.store[k], n - 1, q.calls);
    }
  }

  /** k1 and k2 were answered by two different ones of the calls numbered from first up to last. */
  ghost predicate TwoCalls<B>(runner: Runner<B>, requests: seq<Request<B>>, keys: seq<string>, k1: string, d1: string,
                              k2: string, d2: string, first: nat, last: nat)
    requires |keys| == |requests|
  {
    exists i: nat, c: nat, j: nat, d: nat ::
      && first <= c < last && first <= d < last && c != d
      && AnsweredBy(runner, requests, keys, k1, d1, i, c) && AnsweredBy(runner, requests, keys, k2, d2, j, d)
  }

  lemma {:induction false} DecideEachAsksTwice<B>(runner: Runner<B>, p: Progress, requests: seq<Request<B>>,
                                                  keys: seq<string>, n: nat, k1: string, k2: string)
    requires n <= |requests| == |keys| && k1 != k2 && k1 !in p.store && k2 !in p.store
    requires k1 in DecideEach(runner, p, requests, keys, n).store
    requires k2 in DecideEach(runner, p, requests, keys, n).store
    ensures var done := DecideEach(runner, p, requests, keys, n);
      TwoCalls(runner, requests, keys, k1, done.store[k1], k2, done.store[k2], p.calls, done.calls)
  {
    var q, done := DecideEach(runner, p, requests, keys, n - 1), DecideEach(runner, p, requests, keys, n);
    if k1 in q.store && k2 in q.store {
      DecideEachAsksTwice(runner, p, requests, keys, n - 1, k1, k2);
      TwoCallsStay(runner, requests, keys, k1, q.store[k1], k2, q.store[k2], p.calls, q.calls, done.calls);
    } else if k1 in q.store {
      OneCallMore(runner, p, requests, keys, n - 1, k1, k2);
    } else {
      OneCallMore(runner, p, requests, keys, n - 1, k2, k1);
      TwoCallsSwap(runner, requests, keys, k2, done.store[k2], k1, done.store[k1], p.calls, done.calls);
    }
  }

  lemma TwoCallsStay<B>(runner: Runner<B>, requests: seq<Request<B>>, keys: seq<string>, k1: string, d1: string,
                        k2: string, d2: string, first: nat, last: nat, later: nat)
    requires |keys| == |requests| && last <= later && TwoCalls(runner, requests, keys, k1, d1, k2, d2, first, last)
    ensures TwoCalls(runner, requests, keys, k1, d1, k2, d2, first, later)
  {
    var i: nat, c: nat, j: nat, d: nat :|
      && first <= c < last && first <= d < last && c != d
      && AnsweredBy(runner, requests, keys, k1, d1, i, c) && AnsweredBy(runner, requests, keys, k2, d2, j, d);
    assert first <= c < later && first <= d < later;
  }

  lemma TwoCallsSwap<B>(runner: Runner<B>, requests: seq<Request<B>>, keys: seq<string>, k1: string, d1: string,
                        k2: string, d2: string, first: nat, last: nat)
    requires |keys| == |requests| && TwoCalls(runner, requests, keys, k1, d1, k2, d2, first, last)
    ensures TwoCalls(runner, requests, keys, k2, d2, k1, d1, first, last)
  {
  }

  /** The next request asks for a new key: its call is a later one than that of any key answered before. */
  lemma OneCallMore<B>(runner: Runner<B>, p: Progress, requests: seq<Request<B>>, keys: seq<string>, n: nat,
                       k1: string, k2: string)
    requires n < |requests| == |keys| && k1 !in p.store && k1 in DecideEach(runner, p, requests, keys, n).store
    requires k2 !in DecideEach(runner, p, requests, keys, n).store
    requires k2 in DecideEach(runner, p, requests, keys, n + 1).store
    ensures var done := DecideEach(runner, p, requests, keys, n + 1);
      k1 in done.store &&
      TwoCalls(runner, requests, keys, k1, done.store[k1], k2, done.store[k2], p.calls, done.calls)
  {
    var q, done := DecideEach(runner, p, requests, keys, n), DecideEach(runner, p, requests, keys, n + 1);
    DecideEachAnswers(runner, p, requests, keys, n, k1);
    var i: nat, c: nat :| p.calls <= c < q.calls && AnsweredBy(runner, requests, keys, k1, q.store[k1], i, c);
    assert AnsweredBy(runner, requests, keys, k1, done.store[k1], i, c);
    assert AnsweredBy(runner, requests, keys, k2, done.store[k2], n, q.calls);
  }

  lemma {:induction false} DecideEachSkips<B>(runner: Runner<B>, p: Progress, requests: seq<Request<B>>,
                                              keys: seq<string>, a: nat, b: nat)
    requires a <= b <= |requests| == |keys|
    requires forall i :: a <= i < b ==> !IsNew(p.store.Keys, keys, i)
    ensures DecideEach(runner, p, requests, keys, b) == DecideEach(runner, p, requests, keys, a)
  {
    if a == b {
    } else {
      DecideEachSkips(runner, p, requests, keys, a, b - 1);
      DecideEachMeetsNew(runner, p, requests, keys, b - 1);
    }
  }

  // ---------------------------------------------------------------- asking only what is pending

  /** How far the first m pending requests reach: up to the next pending one. */
  function Reach(todo: seq<nat>, m: nat, n: nat): nat
    requires m <= |todo|
  {
    if m < |todo| then todo[m] else n
  }

  lemma NothingNewBefore(stored: set<string>, keys: seq<string>)
    ensures var todo := Pending(stored, keys, |keys|);
      forall i :: 0 <= i < Reach(todo, 0, |keys|) ==> !IsNew(stored, keys, i)
  {
    PendingExactlyNew(stored, keys, |keys|);
    var todo := Pending(stored, keys, |keys|);
    forall i: nat | i < Reach(todo, 0, |keys|) ensures !IsNew(stored, keys, i) {
      assert i !in todo;
    }
  }

  lemma NothingNewBetween(stored: set<string>, keys: seq<string>, m: nat)
    requires m < |Pending(stored, keys, |keys|)|
    ensures var todo := Pending(stored, keys, |keys|);
      todo[m] < Reach(todo, m + 1, |keys|) <= |keys| && IsNew(stored, keys, todo[m])
      && forall i :: todo[m] < i < Reach(todo, m + 1, |keys|) ==> !IsNew(stored, keys, i)
  {
    PendingExactlyNew(stored, keys, |keys|);
    var todo := Pending(stored, keys, |keys|);
    assert todo[m] in todo;
    forall i: nat | todo[m] < i < Reach(todo, m + 1, |keys|) ensures !IsNew(stored, keys, i) {
      assert i !in todo;
    }
  }

  /** Asking the m-th pending request reaches the next one. */
  lemma AskOne<B>(runner: Runner<B>, p: Progress, requests: seq<Request<B>>, keys: seq<string>, m: nat)
    requires |requests| == |keys| && m < |Pending(p.store.Keys, keys, |keys|)|
    ensures var todo := Pending(p.store.Keys, keys, |keys|);
      var (q, i) := (DecideEach(runner, p, requests, keys, todo[m]), todo[m]);
      Reach(todo, m + 1, |keys|) <= |keys| &&
      DecideEach(runner, p, requests, keys, Reach(todo, m + 1, |keys|))
      == Progress(q.store[keys[i] := runner(q.calls, requests[i].blocks, requests[i].restore)], q.calls + 1)
  {
    var todo := Pending(p.store.Keys, keys, |keys|);
    NothingNewBetween(p.store.Keys, keys, m);
    DecideEachMeetsNew(runner, p, requests, keys, todo[m]);
    DecideEachSkips(runner, p, requests, keys, todo[m] + 1, Reach(todo, m + 1, |keys|));
  }

  // ---------------------------------------------------------------- what a prefetch leaves behind

  /** The old entries unchanged, one entry for every key asked for, and one call per new key. */
  ghost predicate Grown(before: Store, keys: set<string>, after: Store, asked: int) {
    && (forall k :: k in after <==> k in before || k in keys)
    && (forall k :: k in before && k in after ==> after[k] == before[k])
    && asked == |keys - before.Keys|
  }

  lemma PrefetchGrows<B>(runner: Runner<B>, p: Progress, requests: seq<Request<B>>, keys: seq<string>)
    requires |keys| == |requests|
    ensures var done := DecideEach(runner, p, requests, keys, |keys|);
      Grown(p.store, Members(keys, |keys|), done.store, done.calls - p.calls)
  {
    DecideEachKeys(runner, p, requests, keys, |keys|);
    DecideEachCalls(runner, p, requests, keys, |keys|);
    PendingCount(p.store.Keys, keys, |keys|);
    var done := DecideEach(runner, p, requests, keys, |keys|);
    forall k ensures k in done.store <==> k in p.store || k in Members(keys, |keys|) {
      assert k in done.store <==> k in done.store.Keys;
    }
    forall k | k in p.store && k in done.store ensures done.store[k] == p.store[k] {
      DecideEachKeeps(runner, p, requests, keys, |keys|, k);
    }
  }

  lemma SameStore(a: Store, b: Store)
    requires a.Keys == b.Keys && forall k :: k in a && k in b ==> a[k] == b[k]
    ensures a == b
  {
  }

  /** Prefetching the same requests again asks nothing and changes nothing. */
  lemma PrefetchTwice(store: Store, keys: set<string>, once: Store, asked: int, twice: Store, askedAgain: int)
    requires Grown(store, keys, once, asked)
    requires Grown(once, keys, twice, askedAgain)
    ensures askedAgain == 0 && twice == once
  {
    assert keys - once.Keys == {};
    assert twice.Keys == once.Keys;
    SameStore(once, twice);
  }

  class Cache<B> {
    const keyer: Keyer<B>
    const runner: Runner<B>
    var store: Store
    var hits: nat
    var misses: nat
    var calls: nat

    constructor (keyer: Keyer<B>, runner: Runner<B>, store: Store)
      ensures this.keyer == keyer && this.runner == runner && this.store == store
      ensures hits == misses == calls == 0
    {
      this.keyer, this.runner, this.store := keyer, runner, store;
      hits, misses, calls := 0, 0, 0;
    }

    method Call(r: Request<B>) returns (d: string)
      modifies this`calls
      ensures d == runner(old(calls), r.blocks, r.restore) && calls == old(calls) + 1
    {
      d := runner(calls, r.blocks, r.restore);
      calls := calls + 1;
    }

    method Decide(r: Request<B>) returns (d: string)
      modifies this
      ensures var k := ComposeKey(keyer, r);
        if k in old(store)
        then
          && store == old(store) && d == old(store)[k]
          && hits == old(hits) + 1 && misses == old(misses) && calls == old(calls)
        else d == runner(old(calls), r.blocks, r.restore) && store == old(store)[k := d]
             && hits == old(hits) && misses == old(misses) + 1 && calls == old(calls) + 1
    {
      var k := ComposeKey(keyer, r);
      if k in store {
        hits := hits + 1;
        return store[k];
      }
      misses := misses + 1;
      d := Call(r);
      store := store[k := d];
    }

    method Gather(keys: seq<string>) returns (todo: seq<nat>)
      ensures todo == Pending(store.Keys, keys, |keys|)
    {
      todo := [];
      var seen: set<string> := {};
      for i := 0 to |keys|
        invariant todo == Pending(store.Keys, keys, i) && seen == Members(keys, i)
      {
        if keys[i] !in store && keys[i] !in seen {
          todo := todo + [i];
        }
        seen := seen + {keys[i]};
      }
    }

    /** Ask what is pending, in order. */
    method AskPending(requests: seq<Request<B>>, keys: seq<string>, todo: seq<nat>)
      requires |keys| == |requests| && todo == Pending(store.Keys, keys, |keys|)
      modifies this
      ensures Progress(store, calls) == DecideEach(runner, Progress(old(store), old(calls)), requests, keys, |keys|)
      ensures misses - old(misses) == calls - old(calls) && hits == old(hits)
    {
      ghost var p := Progress(store, calls);
      NothingNewBefore(p.store.Keys, keys);
      DecideEachSkips(runner, p, requests, keys, 0, Reach(todo, 0, |keys|));
      for m := 0 to |todo|
        invariant Reach(todo, m, |keys|) <= |keys|
        invariant Progress(store, calls) == DecideEach(runner, p, requests, keys, Reach(todo, m, |keys|))
        invariant misses - old(misses) == calls - old(calls) && hits == old(hits)
      {
        AskOne(runner, p, requests, keys, m);
        var i := todo[m];
        var d := Call(requests[i]);
        store := store[keys[i] := d];
        misses := misses + 1;
      }
    }

    /** A prefetch leaves exactly the store, after exactly the calls, that deciding the requests one
        at a time would; only the counters tell them apart. */
    method Prefetch(requests: seq<Request<B>>)
      modifies this
      ensures Progress(store, calls)
        == DecideEach(runner, Progress(old(store), old(calls)), requests, KeysOf(keyer, requests), |requests|)
      ensures misses - old(misses) == calls - old(calls) && hits == old(hits)
    {
      var keys := KeysOf(keyer, requests);
      var todo := Gather(keys);
      AskPending(requests, keys, todo);
    }
  }
}
