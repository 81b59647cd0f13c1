/**
  What the prefix-cache simulator counts, request by request (benchmarks/why_rtk_wins.py,
  `replay_distil`): when a request rewrites the one before it, what it reads, and what that costs.
*/
module RequestLaws {
  import opened Counting
  import opened PrefixCache

  /** A request rewrites the one before exactly when neither of the two begins with the other. */
  lemma RewritesIff<T>(reqs: seq<seq<T>>, j: nat)
    requires j < |reqs|
    ensures Rewrites(reqs, j) <==> j > 0 && !(reqs[j - 1] <= reqs[j]) && !(reqs[j] <= reqs[j - 1])
  {
    if j > 0 {
      DifferIff(reqs[j - 1], reqs[j]);
    }
  }

  lemma {:induction false} DifferIff<T>(a: seq<T>, b: seq<T>)
    ensures (exists m :: 0 <= m < |a| && m < |b| && a[m] != b[m]) <==> !(a <= b) && !(b <= a)
  {
    if forall m :: 0 <= m < |a| && m < |b| ==> a[m] == b[m] {
      if |a| <= |b| {
        assert a == b[..|a|];
      } else {
        assert b == a[..|b|];
      }
    }
  }

  /** Request i is the longest one before j that j begins with. */
  predicate LongestEarlier<T(==)>(reqs: seq<seq<T>>, j: nat, i: nat) {
    && i < j < |reqs| && reqs[i] <= reqs[j]
    && forall k :: 0 <= k < j && reqs[k] <= reqs[j] ==> |reqs[k]| <= |reqs[i]|
  }

  /** A request reads all of the longest earlier one it begins with, system prompt included, unless that
      is empty; and nothing when it begins with none. */
  lemma ReadIs<T>(size: T -> real, s: real, reqs: seq<seq<T>>, j: nat)
    requires j < |reqs|
    ensures (forall i :: 0 <= i < j ==> !(reqs[i] <= reqs[j])) ==> ReadOf(size, s, reqs, j) == 0.0
    ensures forall i: nat :: LongestEarlier(reqs, j, i) ==>
      ReadOf(size, s, reqs, j) == if reqs[i] == [] then 0.0 else Total(size, s, reqs[i])
  {
    HitIsLongest(reqs, j, reqs[j]);
    forall i: nat | LongestEarlier(reqs, j, i)
      ensures ReadOf(size, s, reqs, j) == if reqs[i] == [] then 0.0 else Total(size, s, reqs[i])
    {
      HitOfLongest(reqs, j, i);
      SizeOfPrefix(size, reqs[i], reqs[j], |reqs[i]|);
    }
  }

  lemma HitOfLongest<T>(reqs: seq<seq<T>>, j: nat, i: nat)
    requires LongestEarlier(reqs, j, i)
    ensures Hit(reqs, j, reqs[j]) == |reqs[i]|
  {
    HitIsLongest(reqs, j, reqs[j]);
    var k := Hit(reqs, j, reqs[j]);
    if k > 0 {
      var m :| 0 <= m < j && reqs[m] == reqs[j][..k];
      assert reqs[m] <= reqs[j];
    }
  }

  // ---------------------------------------------------------------- whole runs

  function SumOf(f: nat -> real, n: nat): real {
    if n == 0 then 0.0 else SumOf(f, n - 1) + f(n - 1)
  }

  /** The requests among the first n that rewrite the one before them. */
  function Rewriting<T(==)>(reqs: seq<seq<T>>, n: nat): set<nat> {
    Positions((j: nat) => 0 < j < |reqs| && !(reqs[j - 1] <= reqs[j]) && !(reqs[j] <= reqs[j - 1]), 0, n)
  }

  lemma {:induction false} RewritesCounted<T>(size: T -> real, s: real, reqs: seq<seq<T>>, n: nat)
    requires n <= |reqs|
    ensures Run(size, s, reqs, n).rewrites == |Rewriting(reqs, n)|
  {
    if n == 0 {
      assert Rewriting(reqs, 0) == {};
    } else {
      RewritesCounted(size, s, reqs, n - 1);
      RewritesIff(reqs, n - 1);
      PositionsGrow((j: nat) => 0 < j < |reqs| && !(reqs[j - 1] <= reqs[j]) && !(reqs[j] <= reqs[j - 1]), 0, n - 1);
    }
  }

  /** What request j sends, reads and, if it rewrites, pays for again. */
  function SentBy<T>(size: T -> real, s: real, reqs: seq<seq<T>>): nat -> real {
    (j: nat) => if j < |reqs| then s + Size(size, reqs[j], |reqs[j]|) else 0.0
  }

  function ReadBy<T(==)>(size: T -> real, s: real, reqs: seq<seq<T>>): nat -> real {
    (j: nat) => if j < |reqs| then ReadOf(size, s, reqs, j) else 0.0
  }

  function RewrittenBy<T(==)>(size: T -> real, s: real, reqs: seq<seq<T>>): nat -> real {
    (j: nat) =>
      if 0 < j < |reqs| && !(reqs[j - 1] <= reqs[j]) && !(reqs[j] <= reqs[j - 1])
      then SentBy(size, s, reqs)(j) - ReadBy(size, s, reqs)(j) else 0.0
  }

  /** For every run: the totals are sums over the requests, of what each sends, what it reads, what is
      left of it to write, and that again for the requests that rewrite. */
  lemma {:induction false} RunSums<T>(size: T -> real, s: real, reqs: seq<seq<T>>, n: nat)
    requires n <= |reqs|
    ensures var r := Run(size, s, reqs, n);
      && r.sent == SumOf(SentBy(size, s, reqs), n) && r.read == SumOf(ReadBy(size, s, reqs), n)
      && r.write == r.sent - r.read
      && r.rewriteTokens == SumOf(RewrittenBy(size, s, reqs), n)
  {
    if n == 0 {
    } else {
      RunSums(size, s, reqs, n - 1);
      RewritesIff(reqs, n - 1);
    }
  }

  /** Two requests that differ in their only message: the second rewrites, and reads nothing. */
  lemma ChangedMessageRewrites<T>(size: T -> real, s: real, a: T, b: T)
    requires a != b
    ensures var r := Run(size, s, [[a], [b]], 2);
      r.rewrites == 1 && r.read == 0.0 && r.rewriteTokens == s + size(b)
  {
    var reqs := [[a], [b]];
    assert Rewrites(reqs, 1) by {
      assert reqs[0][0] != reqs[1][0];
    }
    assert Hit(reqs, 0, reqs[0]) == 0 && Hit(reqs, 0, reqs[1]) == 0;
    assert Hit(reqs, 1, reqs[1]) == 0;
    assert Size(size, [b], 0) == 0.0 && Size(size, [b], 1) == size(b);
    assert Run(size, s, reqs, 0) == START;
    assert Run(size, s, reqs, 1).rewrites == 0 && Run(size, s, reqs, 1).read == 0.0;
  }
}
