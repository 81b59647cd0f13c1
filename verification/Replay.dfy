/**
  Three parts of the repository meet: the requests of a growing transcript, raw or sent through the
  cache-delta walk, run through the prefix-cache simulator and compared with the append-only model
  (benchmarks/why_rtk_wins.py, `replay_distil` and `reconstruct`; distil/cachedelta.py).
*/
module Replay {
  import A = Attribution
  import P = PrefixCache
  import opened Conversation
  import opened CacheDelta
  import opened CacheDeltaLaws
  import Billing

  // ---------------------------------------------------------------- raw transcripts

  /** One request per assistant message: everything before it. */
  function RawRequests(msgs: seq<A.Message>): (reqs: seq<seq<A.Message>>)
    ensures |reqs| == |A.Cuts(msgs, |msgs|)|
  {
    var cuts := A.Cuts(msgs, |msgs|);
    seq(|cuts|, j requires 0 <= j < |cuts| => msgs[..cuts[j]])
  }

  /** Estimated tokens of a message. */
  function MessageSize(coef: A.Coef): A.Message -> real
    requires A.ValidCoef(coef)
  {
    (m: A.Message) => A.Weighted(coef.per, A.BlockChars(m), A.KINDS)
  }

  lemma {:induction false} SizeIsWeighted(coef: A.Coef, msgs: seq<A.Message>, n: nat)
    requires A.ValidCoef(coef) && n <= |msgs|
    ensures P.Size(MessageSize(coef), msgs, n) == A.Weighted(coef.per, A.Chars(msgs, n), A.KINDS)
  {
    if n == 0 {
      A.WeightedZero(coef.per, A.KINDS);
    } else {
      SizeIsWeighted(coef, msgs, n - 1);
      A.WeightedAdds(coef.per, A.Chars(msgs, n - 1), A.BlockChars(msgs[n - 1]), A.KINDS);
    }
  }

  lemma RawRequestTotal(coef: A.Coef, msgs: seq<A.Message>, j: nat)
    requires A.ValidCoef(coef) && j < |RawRequests(msgs)|
    ensures P.Total(MessageSize(coef), coef.s, RawRequests(msgs)[j]) == A.Tok(coef, A.Prefixes(msgs)[j])
  {
    var n := A.Cuts(msgs, |msgs|)[j];
    SizeIsWeighted(coef, msgs, n);
    P.SizeOfPrefix(MessageSize(coef), msgs[..n], msgs, n);
  }

  lemma RawRequestsAppendOnly(msgs: seq<A.Message>)
    ensures P.AppendOnly(RawRequests(msgs))
  {
    var cuts := A.Cuts(msgs, |msgs|);
    forall i, j | 0 <= i <= j < |cuts| ensures msgs[..cuts[i]] <= msgs[..cuts[j]] {
      assert cuts[i] <= cuts[j];
    }
  }

  lemma {:induction false} RawSumTotals(coef: A.Coef, msgs: seq<A.Message>, n: nat)
    requires A.ValidCoef(coef) && n <= |RawRequests(msgs)|
    ensures P.SumTotals(MessageSize(coef), coef.s, RawRequests(msgs), n) == A.SumTok(coef, A.Prefixes(msgs), n)
  {
    if n == 0 {
    } else {
      RawSumTotals(coef, msgs, n - 1);
      RawRequestTotal(coef, msgs, n - 1);
    }
  }

  /** On an untransformed transcript the simulator and the attribution model agree on both totals
      exactly when the transcript does not open with an assistant message (or nothing is charged for
      the system prompt, or there is a single request). */
  lemma SimulatorMatchesModelIff(coef: A.Coef, msgs: seq<A.Message>)
    requires A.ValidCoef(coef) && |RawRequests(msgs)| > 0
    ensures var r := P.Run(MessageSize(coef), coef.s, RawRequests(msgs), |RawRequests(msgs)|);
      && r.rewrites == 0 && r.read + r.write == r.sent
      && (r.read == A.PredRead(coef, A.Prefixes(msgs)) && r.write == A.PredWrite(coef, A.Prefixes(msgs)) <==>
          coef.s == 0.0 || |RawRequests(msgs)| == 1 || msgs[0].role != A.Assistant)
  {
    var reqs, n := RawRequests(msgs), |RawRequests(msgs)|;
    RawRequestsAppendOnly(msgs);
    P.AppendOnlyTotals(MessageSize(coef), coef.s, reqs, n);
    P.ReadPlusWriteIsSent(MessageSize(coef), coef.s, reqs, n);
    P.MatchesClosedFormIff(MessageSize(coef), coef.s, reqs);
    RawSumTotals(coef, msgs, n - 1);
    RawRequestTotal(coef, msgs, n - 1);
    FirstCut(msgs, |msgs|);
  }

  lemma {:induction false} FirstCut(msgs: seq<A.Message>, n: nat)
    requires n <= |msgs| && |A.Cuts(msgs, n)| > 0
    ensures n > 0 && (A.Cuts(msgs, n)[0] == 0 <==> msgs[0].role == A.Assistant)
  {
    if A.Cuts(msgs, n - 1) != [] {
      FirstCut(msgs, n - 1);
    } else {
      NoCuts(msgs, n - 1);
    }
  }

  lemma {:induction false} NoCuts(msgs: seq<A.Message>, n: nat)
    requires n <= |msgs| && A.Cuts(msgs, n) == []
    ensures forall i :: 0 <= i < n ==> msgs[i].role != A.Assistant
  {
    if n == 0 {
    } else {
      NoCuts(msgs, n - 1);
    }
  }

  // ---------------------------------------------------------------- encoded conversations

  predicate Increasing(cuts: seq<nat>, n: nat) {
    (forall i, j :: 0 <= i < j < |cuts| ==> cuts[i] <= cuts[j]) && forall j :: 0 <= j < |cuts| ==> cuts[j] <= n
  }

  /** The requests of a growing conversation, each encoded from scratch. */
  function EncodedRequests(c: Codec, keep: set<string>, msgs: Conv, cuts: seq<nat>): (reqs: seq<Conv>)
    requires Increasing(cuts, |msgs|)
    ensures |reqs| == |cuts|
  {
    seq(|cuts|, j requires 0 <= j < |cuts| => Billing.Sent(c, keep, msgs[..cuts[j]]))
  }

  lemma SentPrefix(c: Codec, keep: set<string>, msgs: Conv, m: nat, n: nat)
    requires m <= n <= |msgs|
    ensures Billing.Sent(c, keep, msgs[..m]) <= Billing.Sent(c, keep, msgs[..n])
  {
    var a, b := msgs[..m], msgs[..n];
    assert a[..m] == b[..m];
    PrefixDeterminism(c, keep, a, b, m);
    var x, y := EncodeAll(c, keep, a), EncodeAll(c, keep, b);
    forall i | 0 <= i < m ensures Billing.Sent(c, keep, a)[i] == Billing.Sent(c, keep, b)[i] {
      assert x[i] == x[..m][i] == y[..m][i] == y[i];
    }
  }

  /** Re-encoding the whole conversation at every step never rewrites a message that was already sent,
      so the simulated cache reads every earlier request in full and writes only what is new. */
  lemma EncodedReplayNeverRewrites(c: Codec, keep: set<string>, msgs: Conv, cuts: seq<nat>,
                                   size: Msg<string> -> real, s: real)
    requires Increasing(cuts, |msgs|) && |cuts| > 0 && cuts[0] > 0
    ensures var reqs, n := EncodedRequests(c, keep, msgs, cuts), |cuts|;
      var r := P.Run(size, s, reqs, n);
      && r.rewrites == 0 && r.rewriteTokens == 0.0
      && r.read == P.SumTotals(size, s, reqs, n - 1)
      && r.write == P.Total(size, s, reqs[n - 1])
  {
    var reqs, n := EncodedRequests(c, keep, msgs, cuts), |cuts|;
    forall i, j | 0 <= i <= j < n ensures reqs[i] <= reqs[j] {
      SentPrefix(c, keep, msgs, cuts[i], cuts[j]);
    }
    P.AppendOnlyTotals(size, s, reqs, n);
    P.MatchesClosedFormIff(size, s, reqs);
  }
}
