/**
  Whole runs of the session registry: which keys survive, which requests get the same session
  back, and what the reported prefix length compares with (distil/cachedelta.py, `get_session` and
  the prefix statistic of `delta_encode`).
*/
module SessionTrace {
  import opened Wrappers
  import opened SessionRegistry
  import CacheDelta

  /** A request: the session key and the hashes of the messages sent with it. */
  datatype Request = Request(key: string, hashes: seq<string>)

  /** The registry after the first n requests, a session being named by the request that created it. */
  function Run(reqs: seq<Request>, n: nat): Registry<nat>
    requires n <= |reqs|
    decreases n, 0
  {
    if n == 0 then Registry([], map[])
    else Touched(Run(reqs, n - 1), reqs[n - 1].key, SessionOf(reqs, n - 1))
  }

  /** The session request n is answered with. */
  function SessionOf(reqs: seq<Request>, n: nat): nat
    requires n < |reqs|
    decreases n, 1
  {
    var k, r := reqs[n].key, Run(reqs, n);
    if k in r.sessions then r.sessions[k] else n
  }

  /** The session k has after the first n requests, if it has one. */
  function SessionAfter(reqs: seq<Request>, n: nat, k: string): (s: Option<nat>)
    requires n <= |reqs|
    ensures s.Some? ==> n > 0
  {
    var r := Run(reqs, n);
    if k in r.sessions then Some(r.sessions[k]) else None
  }

  lemma SessionAfterStep(reqs: seq<Request>, n: nat, k: string)
    requires n < |reqs|
    ensures SessionAfter(reqs, n + 1, k).None?
      || SessionAfter(reqs, n + 1, k) == if k == reqs[n].key then Some(SessionOf(reqs, n)) else SessionAfter(reqs, n, k)
  {
    var r, id := Run(reqs, n), SessionOf(reqs, n);
    if k in Touched(r, reqs[n].key, id).sessions {
      TouchedAt(r, reqs[n].key, id, k);
    }
  }

  /** The keys of the first n requests, each moved to the end by every request for it. */
  function Recent(reqs: seq<Request>, n: nat): seq<string>
    requires n <= |reqs|
  {
    if n == 0 then [] else MoveToEnd(Recent(reqs, n - 1), reqs[n - 1].key)
  }

  /** Index of the last of the first n requests for k; -1 when there is none. */
  function LastRequest(reqs: seq<Request>, n: nat, k: string): (i: int)
    requires n <= |reqs|
    ensures -1 <= i < n
    ensures i >= 0 ==> reqs[i].key == k
    ensures forall j :: i < j < n ==> reqs[j].key != k
  {
    if n == 0 then -1 else if reqs[n - 1].key == k then n - 1 else LastRequest(reqs, n - 1, k)
  }

  // ---------------------------------------------------------------- the order is by recency

  /** Listed in the order of their last requests among the first m. */
  predicate ByLastRequest(reqs: seq<Request>, m: nat, s: seq<string>)
    requires m <= |reqs|
  {
    forall i, j :: 0 <= i < j < |s| ==> LastRequest(reqs, m, s[i]) < LastRequest(reqs, m, s[j])
  }

  lemma {:induction false} WithoutKeepsOrder(reqs: seq<Request>, m: nat, s: seq<string>, n: nat, k: string)
    requires n <= |s| && m <= |reqs| && ByLastRequest(reqs, m, s)
    ensures ByLastRequest(reqs, m, Without(s, n, k))
  {
    if n == 0 {
    } else {
      WithoutKeepsOrder(reqs, m, s, n - 1, k);
      var r := Without(s, n - 1, k);
      forall i | 0 <= i < |r| ensures LastRequest(reqs, m, r[i]) < LastRequest(reqs, m, s[n - 1]) {
        assert r[i] in s[..n - 1];
        var j :| 0 <= j < n - 1 && s[j] == r[i];
      }
    }
  }

  lemma OrderAfterRequest(reqs: seq<Request>, n: nat, rest: seq<string>)
    requires n < |reqs| && ByLastRequest(reqs, n, rest) && reqs[n].key !in rest
    ensures ByLastRequest(reqs, n + 1, rest + [reqs[n].key])
  {
    forall i | 0 <= i < |rest| ensures LastRequest(reqs, n + 1, rest[i]) == LastRequest(reqs, n, rest[i]) {
      assert rest[i] in rest;
    }
  }

  lemma {:induction false} RecentAreRequested(reqs: seq<Request>, n: nat)
    requires n <= |reqs|
    ensures Distinct(Recent(reqs, n))
    ensures forall k :: k in Recent(reqs, n) <==> LastRequest(reqs, n, k) >= 0
  {
    if n == 0 {
    } else {
      RecentAreRequested(reqs, n - 1);
      MoveToEndDistinct(Recent(reqs, n - 1), reqs[n - 1].key);
    }
  }

  lemma MoveKeepsOrder(reqs: seq<Request>, n: nat, before: seq<string>)
    requires n < |reqs| && Distinct(before) && ByLastRequest(reqs, n, before)
    ensures ByLastRequest(reqs, n + 1, MoveToEnd(before, reqs[n].key))
  {
    var k := reqs[n].key;
    WithoutDistinct(before, |before|, k);
    WithoutKeepsOrder(reqs, n, before, |before|, k);
    OrderAfterRequest(reqs, n, Without(before, |before|, k));
  }

  lemma {:induction false} RecentInOrder(reqs: seq<Request>, n: nat)
    requires n <= |reqs|
    ensures ByLastRequest(reqs, n, Recent(reqs, n))
  {
    if n == 0 {
    } else {
      RecentInOrder(reqs, n - 1);
      RecentAreRequested(reqs, n - 1);
      MoveKeepsOrder(reqs, n - 1, Recent(reqs, n - 1));
    }
  }

  /** Recent lists exactly the keys requested so far, each once, in the order of their last requests. */
  lemma RecentIsByLastRequest(reqs: seq<Request>, n: nat)
    requires n <= |reqs|
    ensures Distinct(Recent(reqs, n))
    ensures ByLastRequest(reqs, n, Recent(reqs, n))
    ensures forall k :: k in Recent(reqs, n) <==> LastRequest(reqs, n, k) >= 0
  {
    RecentAreRequested(reqs, n);
    RecentInOrder(reqs, n);
  }

  lemma {:induction false} WithoutOfSum(a: seq<string>, b: seq<string>, n: nat, k: string)
    requires n <= |b|
    ensures Without(a + b, |a| + n, k) == Without(a, |a|, k) + Without(b, n, k)
  {
    if n == 0 {
      WithoutOfPrefix(a, a + b, |a|, k);
    } else {
      WithoutOfSum(a, b, n - 1, k);
    }
  }

  lemma {:induction false} WithoutOfPrefix(a: seq<string>, b: seq<string>, n: nat, k: string)
    requires n <= |a| && a <= b
    ensures Without(a, n, k) == Without(b, n, k)
  {
    if n == 0 {
    } else {
      WithoutOfPrefix(a, b, n - 1, k);
    }
  }

  lemma TrimSuffix(a: seq<string>, b: seq<string>)
    requires |b| >= MAX_SESSIONS
    ensures Trim(a + b) == Trim(b)
  {
  }

  /** Evicting early or late makes no difference to the last MAX_SESSIONS keys. */
  lemma TrimThenMove(s: seq<string>, k: string)
    requires Distinct(s)
    ensures Trim(MoveToEnd(Trim(s), k)) == Trim(MoveToEnd(s, k))
  {
    if |s| > MAX_SESSIONS {
      var cut := |s| - MAX_SESSIONS;
      var front, back := s[..cut], s[cut..];
      WithoutOfSum(front, back, |back|, k);
      WithoutDistinct(back, |back|, k);
      assert front + back == s;
      assert MoveToEnd(s, k) == Without(front, cut, k) + MoveToEnd(back, k);
      TrimSuffix(Without(front, cut, k), MoveToEnd(back, k));
    }
  }

  /** After any sequence of requests the registry holds the last MAX_SESSIONS distinct keys by most
      recent request, in that order. */
  lemma {:induction false} RegistryIsLru(reqs: seq<Request>, n: nat)
    requires n <= |reqs|
    ensures Run(reqs, n).order == Trim(Recent(reqs, n)) && WellFormed(Run(reqs, n))
  {
    if n == 0 {
    } else {
      RegistryIsLru(reqs, n - 1);
      RecentIsByLastRequest(reqs, n - 1);
      TrimThenMove(Recent(reqs, n - 1), reqs[n - 1].key);
      TouchedWellFormed(Run(reqs, n - 1), reqs[n - 1].key, SessionOf(reqs, n - 1));
    }
  }

  // ---------------------------------------------------------------- when a session is found again

  /** The distinct keys requested between requests i and j. */
  function KeysBetween(reqs: seq<Request>, i: nat, j: nat): set<string>
    requires i < j <= |reqs|
  {
    set m | i < m < j :: reqs[m].key
  }

  lemma {:induction false} DistinctCount(s: seq<string>, keys: set<string>)
    requires Distinct(s) && forall k :: k in s <==> k in keys
    ensures |s| == |keys|
  {
    if s == [] {
      assert keys == {};
    } else {
      var last := s[|s| - 1];
      DistinctCount(s[..|s| - 1], keys - {last});
    }
  }

  lemma InTrimIff(s: seq<string>, p: nat)
    requires Distinct(s) && p < |s|
    ensures s[p] in Trim(s) <==> |s| - p - 1 < MAX_SESSIONS
  {
    if |s| > MAX_SESSIONS && |s| - p - 1 < MAX_SESSIONS {
      assert Trim(s)[p - (|s| - MAX_SESSIONS)] == s[p];
    }
  }

  lemma LaterCount(reqs: seq<Request>, i: nat, n: nat, p: nat)
    requires i < n <= |reqs| && LastRequest(reqs, n, reqs[i].key) == i
    requires p < |Recent(reqs, n)| && Recent(reqs, n)[p] == reqs[i].key
    ensures |Recent(reqs, n)| - p - 1 == |KeysBetween(reqs, i, n)|
  {
    var r := Recent(reqs, n);
    RecentIsByLastRequest(reqs, n);
    forall x ensures x in r[p + 1..] <==> x in KeysBetween(reqs, i, n) {
      LaterIff(reqs, i, n, p, x);
    }
    DistinctCount(r[p + 1..], KeysBetween(reqs, i, n));
  }

  /** Between two requests for its key, a session is still there iff fewer than 512 other
      keys have been requested. */
  lemma PresentIff(reqs: seq<Request>, i: nat, n: nat)
    requires i < n <= |reqs| && LastRequest(reqs, n, reqs[i].key) == i
    ensures SessionAfter(reqs, n, reqs[i].key).Some? <==> |KeysBetween(reqs, i, n)| < 512
  {
    var k, r := reqs[i].key, Recent(reqs, n);
    RecentIsByLastRequest(reqs, n);
    var p :| 0 <= p < |r| && r[p] == k;
    LaterCount(reqs, i, n, p);
    InTrimIff(r, p);
    RegistryIsLru(reqs, n);
  }

  lemma LaterIff(reqs: seq<Request>, i: nat, n: nat, p: nat, x: string)
    requires i < n <= |reqs| && LastRequest(reqs, n, reqs[i].key) == i
    requires p < |Recent(reqs, n)| && Recent(reqs, n)[p] == reqs[i].key
    ensures x in Recent(reqs, n)[p + 1..] <==> x in KeysBetween(reqs, i, n)
  {
    var r, l := Recent(reqs, n), LastRequest(reqs, n, x);
    RecentIsByLastRequest(reqs, n);
    if x in r[p + 1..] {
      var q :| p < q < |r| && r[q] == x;
      assert l > i && reqs[l].key == x;
    }
    if x in KeysBetween(reqs, i, n) {
      var m :| i < m < n && reqs[m].key == x;
      assert l >= m;
      var q :| 0 <= q < |r| && r[q] == x;
      assert q > p;
    }
  }

  lemma {:induction false} SessionKept(reqs: seq<Request>, i: nat, n: nat)
    requires i < n <= |reqs| && LastRequest(reqs, n, reqs[i].key) == i
    requires SessionAfter(reqs, n, reqs[i].key).Some?
    ensures SessionAfter(reqs, n, reqs[i].key) == Some(SessionOf(reqs, i))
  {
    SessionAfterStep(reqs, n - 1, reqs[i].key);
    if i < n - 1 {
      SessionKept(reqs, i, n - 1);
    }
  }

  /** Request j, the next one for its key after i, gets the same session back iff fewer than
      512 distinct keys were requested in between; otherwise it gets a new one. */
  lemma SameSessionIff(reqs: seq<Request>, i: nat, j: nat)
    requires i < j < |reqs| && LastRequest(reqs, j, reqs[j].key) == i
    ensures SessionOf(reqs, j) == if |KeysBetween(reqs, i, j)| < 512 then SessionOf(reqs, i) else j
    ensures SessionOf(reqs, i) != j
  {
    PresentIff(reqs, i, j);
    if SessionAfter(reqs, j, reqs[j].key).Some? {
      SessionKept(reqs, i, j);
    }
    SessionsOwnKey(reqs, i);
  }

  lemma {:induction false} RegistrySessions(reqs: seq<Request>, n: nat, k: string)
    requires n <= |reqs| && SessionAfter(reqs, n, k).Some?
    ensures var id := SessionAfter(reqs, n, k).value; id < n && reqs[id].key == k
    decreases n, 0
  {
    SessionAfterStep(reqs, n - 1, k);
    if k != reqs[n - 1].key {
      RegistrySessions(reqs, n - 1, k);
    } else {
      SessionsOwnKey(reqs, n - 1);
    }
  }

  /** A session only ever answers requests for one key. */
  lemma {:induction false} SessionsOwnKey(reqs: seq<Request>, n: nat)
    requires n < |reqs|
    ensures SessionOf(reqs, n) <= n && reqs[SessionOf(reqs, n)].key == reqs[n].key
    decreases n, 1
  {
    if SessionAfter(reqs, n, reqs[n].key).Some? {
      RegistrySessions(reqs, n, reqs[n].key);
    }
  }

  // ---------------------------------------------------------------- the prefix statistic

  /** What each session remembers after the first n requests. */
  function Memory(reqs: seq<Request>, n: nat): map<nat, seq<string>>
    requires n <= |reqs|
  {
    if n == 0 then map[] else Memory(reqs, n - 1)[SessionOf(reqs, n - 1) := reqs[n - 1].hashes]
  }

  /** A session that has not been used before remembers no messages. */
  function PrefixMsgs(reqs: seq<Request>, n: nat): nat
    requires n < |reqs|
  {
    var id, memory := SessionOf(reqs, n), Memory(reqs, n);
    CacheDelta.CommonPrefix(reqs[n].hashes, if id in memory then memory[id] else [])
  }

  lemma {:induction false} MemoryKept(reqs: seq<Request>, i: nat, n: nat)
    requires i < n <= |reqs| && LastRequest(reqs, n, reqs[i].key) == i
    ensures SessionOf(reqs, i) in Memory(reqs, n) && Memory(reqs, n)[SessionOf(reqs, i)] == reqs[i].hashes
  {
    if i < n - 1 {
      OtherSession(reqs, i, n - 1);
      MemoryKept(reqs, i, n - 1);
    }
  }

  lemma OtherSession(reqs: seq<Request>, i: nat, j: nat)
    requires i < |reqs| && j < |reqs| && reqs[i].key != reqs[j].key
    ensures SessionOf(reqs, i) != SessionOf(reqs, j)
  {
    SessionsOwnKey(reqs, i);
    SessionsOwnKey(reqs, j);
  }

  lemma {:induction false} MemoryBounded(reqs: seq<Request>, n: nat, id: nat)
    requires n <= |reqs| && id in Memory(reqs, n)
    ensures id < n
  {
    if id !in Memory(reqs, n - 1) {
      SessionsOwnKey(reqs, n - 1);
    } else {
      MemoryBounded(reqs, n - 1, id);
    }
  }

  /** The reported prefix is the exact longest common prefix with the previous request for the same
      key, unless that session was evicted in between, and then it is 0. */
  lemma PrefixComparesWithPreviousRequest(reqs: seq<Request>, i: nat, j: nat)
    requires i < j < |reqs| && LastRequest(reqs, j, reqs[j].key) == i
    ensures PrefixMsgs(reqs, j) ==
      if |KeysBetween(reqs, i, j)| < 512 then CacheDelta.CommonPrefix(reqs[j].hashes, reqs[i].hashes) else 0
  {
    SameSessionIff(reqs, i, j);
    MemoryKept(reqs, i, j);
    if |KeysBetween(reqs, i, j)| >= MAX_SESSIONS && j in Memory(reqs, j) {
      MemoryBounded(reqs, j, j);
    }
  }
}
