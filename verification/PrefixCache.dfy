/**
  The prefix-cache simulator (benchmarks/why_rtk_wins.py, `replay_distil`): every request ends in a
  cache write, and a request reads the longest earlier request that is a prefix of it.  Requests
  are sequences of canonical messages; `s` is the size of the system prompt and tools.
*/
module PrefixCache {

  /** Size of the first n messages. */
  function Size<T>(size: T -> real, req: seq<T>, n: nat): real
    requires n <= |req|
  {
    if n == 0 then 0.0 else Size(size, req, n - 1) + size(req[n - 1])
  }

  function Total<T>(size: T -> real, s: real, req: seq<T>): real {
    s + Size(size, req, |req|)
  }

  /** Length of the longest of the first n requests that is a prefix of req. */
  function Hit<T(==)>(reqs: seq<seq<T>>, n: nat, req: seq<T>): (k: nat)
    requires n <= |reqs|
    ensures k <= |req|
  {
    if n == 0 then 0
    else
      var k := Hit(reqs, n - 1, req);
      if reqs[n - 1] <= req && k < |reqs[n - 1]| then |reqs[n - 1]| else k
  }

  /** What request j reads from the cache: nothing at all when no earlier request is a non-empty prefix. */
  function ReadOf<T(==)>(size: T -> real, s: real, reqs: seq<seq<T>>, j: nat): real
    requires j < |reqs|
  {
    var k := Hit(reqs, j, reqs[j]);
    if k > 0 then s + Size(size, reqs[j], k) else 0.0
  }

  /** Request j differs from the one before in a message both contain. */
  predicate Rewrites<T(==)>(reqs: seq<seq<T>>, j: nat)
    requires j < |reqs|
  {
    j > 0 && exists m :: 0 <= m < |reqs[j]| && m < |reqs[j - 1]| && reqs[j - 1][m] != reqs[j][m]
  }

  datatype Replay = Replay(steps: nat, read: real, write: real, sent: real, rewrites: nat, rewriteTokens: real)

  const START := Replay(0, 0.0, 0.0, 0.0, 0, 0.0)

  function Account<T(==)>(size: T -> real, s: real, reqs: seq<seq<T>>, j: nat, r: Replay): Replay
    requires j < |reqs|
  {
    var total, read := Total(size, s, reqs[j]), ReadOf(size, s, reqs, j);
    var rewritten := Rewrites(reqs, j);
    Replay(r.steps + 1, r.read + read, r.write + (total - read), r.sent + total,
           r.rewrites + (if rewritten then 1 else 0),
           r.rewriteTokens + (if rewritten then total - read else 0.0))
  }

  /** The simulator's totals after n requests. */
  function Run<T(==)>(size: T -> real, s: real, reqs: seq<seq<T>>, n: nat): Replay
    requires n <= |reqs|
  {
    if n == 0 then START else Account(size, s, reqs, n - 1, Run(size, s, reqs, n - 1))
  }

  method LongestHit<T(==)>(reqs: seq<seq<T>>, j: nat) returns (hit: nat)
    requires j < |reqs|
    ensures hit == Hit(reqs, j, reqs[j])
  {
    hit := 0;
    for i := 0 to j
      invariant hit == Hit(reqs, i, reqs[j])
    {
      var k := |reqs[i]|;
      if k <= |reqs[j]| && reqs[i][..k] == reqs[j][..k] && hit < k {
        hit := k;
      }
    }
  }

  method Simulate<T(==)>(size: T -> real, s: real, reqs: seq<seq<T>>) returns (out: Replay)
    ensures out == Run(size, s, reqs, |reqs|)
  {
    out := START;
    for j := 0 to |reqs|
      invariant out == Run(size, s, reqs, j)
    {
      var total := s + Size(size, reqs[j], |reqs[j]|);
      var hit := LongestHit(reqs, j);
      var read := if hit > 0 then s + Size(size, reqs[j], hit) else 0.0;
      if Rewrites(reqs, j) {
        out := out.(rewrites := out.rewrites + 1, rewriteTokens := out.rewriteTokens + (total - read));
      }
      out := out.(steps := out.steps + 1, read := out.read + read, write := out.write + (total - read),
        sent := out.sent + total);
    }
  }

  // ---------------------------------------------------------------- any sequence of requests

  /** The hit is a prefix some earlier request wrote, and no earlier request that is a prefix is longer. */
  lemma {:induction false} HitIsLongest<T>(reqs: seq<seq<T>>, n: nat, req: seq<T>)
    requires n <= |reqs|
    ensures var k := Hit(reqs, n, req);
      && (forall i :: 0 <= i < n && reqs[i] <= req ==> |reqs[i]| <= k)
      && (k > 0 ==> exists i :: 0 <= i < n && reqs[i] == req[..k])
  {
    if n == 0 {
    } else {
      HitIsLongest(reqs, n - 1, req);
    }
  }

  /** Every sent token is either read or written. */
  lemma {:induction false} ReadPlusWriteIsSent<T>(size: T -> real, s: real, reqs: seq<seq<T>>, n: nat)
    requires n <= |reqs|
    ensures var r := Run(size, s, reqs, n); r.steps == n && r.read + r.write == r.sent
  {
    if n == 0 {
    } else {
      ReadPlusWriteIsSent(size, s, reqs, n - 1);
    }
  }

  // ---------------------------------------------------------------- append-only requests

  /** Each request is a prefix of the next. */
  predicate AppendOnly<T(==)>(reqs: seq<seq<T>>) {
    forall i, j :: 0 <= i <= j < |reqs| ==> reqs[i] <= reqs[j]
  }

  function SumTotals<T>(size: T -> real, s: real, reqs: seq<seq<T>>, n: nat): real
    requires n <= |reqs|
  {
    if n == 0 then 0.0 else SumTotals(size, s, reqs, n - 1) + Total(size, s, reqs[n - 1])
  }

  /** How many of the first n requests are empty. */
  function EmptyRequests<T>(reqs: seq<seq<T>>, n: nat): nat
    requires n <= |reqs|
  {
    if n == 0 then 0 else EmptyRequests(reqs, n - 1) + if |reqs[n - 1]| == 0 then 1 else 0
  }

  lemma {:induction false} SizeOfPrefix<T>(size: T -> real, a: seq<T>, b: seq<T>, n: nat)
    requires n <= |a| && a <= b
    ensures Size(size, a, n) == Size(size, b, n)
  {
    if n == 0 {
    } else {
      SizeOfPrefix(size, a, b, n - 1);
    }
  }

  lemma AppendOnlyHit<T>(reqs: seq<seq<T>>, j: nat)
    requires 0 < j < |reqs| && AppendOnly(reqs)
    ensures Hit(reqs, j, reqs[j]) == |reqs[j - 1]| && !Rewrites(reqs, j)
  {
    HitIsLongest(reqs, j, reqs[j]);
    var k := Hit(reqs, j, reqs[j]);
    assert reqs[j - 1] <= reqs[j];
    if k > 0 {
      var i :| 0 <= i < j && reqs[i] == reqs[j][..k];
      assert reqs[i] <= reqs[j - 1];
    }
  }

  /** One step of an append-only run: the hit is the request before, which is read unless it was empty. */
  lemma AppendOnlyRead<T>(size: T -> real, s: real, reqs: seq<seq<T>>, j: nat)
    requires 0 < j < |reqs| && AppendOnly(reqs)
    ensures ReadOf(size, s, reqs, j) == Total(size, s, reqs[j - 1]) - if |reqs[j - 1]| == 0 then s else 0.0
    ensures !Rewrites(reqs, j)
  {
    AppendOnlyHit(reqs, j);
    assert reqs[j - 1] <= reqs[j];
    SizeOfPrefix(size, reqs[j - 1], reqs[j], |reqs[j - 1]|);
  }

  lemma FirstRead<T>(size: T -> real, s: real, reqs: seq<seq<T>>)
    requires |reqs| > 0
    ensures ReadOf(size, s, reqs, 0) == 0.0 && !Rewrites(reqs, 0)
  {
    assert Hit(reqs, 0, reqs[0]) == 0;
  }

  /** An append-only run reads, at every step, all of the request before, unless that was empty. */
  lemma {:induction false} AppendOnlyTotals<T>(size: T -> real, s: real, reqs: seq<seq<T>>, n: nat)
    requires 0 < n <= |reqs| && AppendOnly(reqs)
    ensures var r := Run(size, s, reqs, n);
      && r.rewrites == 0 && r.rewriteTokens == 0.0
      && r.sent == SumTotals(size, s, reqs, n)
      && r.read == SumTotals(size, s, reqs, n - 1) - s * EmptyRequests(reqs, n - 1) as real
  {
    if n == 1 {
      FirstRead(size, s, reqs);
      assert Run(size, s, reqs, 0) == START;
    } else {
      AppendOnlyTotals(size, s, reqs, n - 1);
      AppendOnlyRead(size, s, reqs, n - 1);
      CountTimes(s, EmptyRequests(reqs, n - 2));
    }
  }

  lemma CountTimes(s: real, n: nat)
    ensures s * (n + 1) as real == s * n as real + s
  {
  }

  /** The simulator agrees with the closed form of a perfectly cached append-only run, reads being all
      earlier requests and writes the last one, exactly when no request but the last is empty or
      nothing is charged for the system prompt. */
  lemma MatchesClosedFormIff<T>(size: T -> real, s: real, reqs: seq<seq<T>>)
    requires |reqs| > 0 && AppendOnly(reqs)
    ensures var r, n := Run(size, s, reqs, |reqs|), |reqs|;
      (r.read == SumTotals(size, s, reqs, n - 1) && r.write == Total(size, s, reqs[n - 1])) <==>
      (s == 0.0 || n == 1 || reqs[0] != [])
  {
    var n := |reqs|;
    AppendOnlyTotals(size, s, reqs, n);
    ReadPlusWriteIsSent(size, s, reqs, n);
    EmptyIff(reqs, n - 1);
    if s != 0.0 && EmptyRequests(reqs, n - 1) > 0 {
      NonZeroProduct(s, EmptyRequests(reqs, n - 1));
    }
  }

  lemma {:induction false} EmptyIff<T>(reqs: seq<seq<T>>, n: nat)
    requires n <= |reqs| && AppendOnly(reqs)
    ensures EmptyRequests(reqs, n) == 0 <==> n == 0 || reqs[0] != []
  {
    if n == 0 {
    } else {
      EmptyIff(reqs, n - 1);
      assert reqs[0] <= reqs[n - 1];
    }
  }

  lemma NonZeroProduct(s: real, n: nat)
    requires s != 0.0 && n > 0
    ensures s * n as real != 0.0
  {
  }
}
