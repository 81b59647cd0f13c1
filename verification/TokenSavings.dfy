/**
  What the reported token savings of a call mean (distil/cachedelta.py, `tokens_saved` in
  `_encode_block` and `delta_encode`).
*/
module TokenSavings {
  import opened Conversation
  import opened CacheDelta
  import opened CacheDeltaLaws

  function Sum(xs: seq<nat>, n: nat): nat
    requires n <= |xs|
  {
    if n == 0 then 0 else Sum(xs, n - 1) + xs[n - 1]
  }

  lemma {:induction false} SumZeroIff(xs: seq<nat>, n: nat)
    requires n <= |xs|
    ensures Sum(xs, n) == 0 <==> forall i :: 0 <= i < n ==> xs[i] == 0
  {
    if n == 0 {
    } else {
      SumZeroIff(xs, n - 1);
    }
  }

  /** A running total that at every step, with what is sent, gains what is raw and what is excess. */
  lemma {:induction false} Telescope(saved: seq<nat>, sent: seq<nat>, raw: seq<nat>, excess: seq<nat>, n: nat)
    requires n < |saved| && n <= |sent| && n <= |raw| && n <= |excess|
    requires forall i :: 0 <= i < n ==> saved[i + 1] + sent[i] == saved[i] + raw[i] + excess[i]
    ensures saved[n] + Sum(sent, n) == saved[0] + Sum(raw, n) + Sum(excess, n)
  {
    if n == 0 {
    } else {
      Telescope(saved, sent, raw, excess, n - 1);
    }
  }

  // ---------------------------------------------------------------- one message

  function SiteTokens(c: Codec, sites: seq<Site>): seq<nat> {
    seq<nat>(|sites|, j requires 0 <= j < |sites| => c.count(sites[j].text))
  }

  function WireTokens(c: Codec, ws: seq<Wire>): seq<nat> {
    seq<nat>(|ws|, j requires 0 <= j < |ws| => c.count(Render(c, ws[j])))
  }

  /** Tokens by which a text grew when it was replaced: shorter in characters, longer in tokens. */
  function Excess(c: Codec, s: Site, w: Wire): nat {
    var before, after := c.count(s.text), c.count(Render(c, w));
    if before < after then after - before else 0
  }

  function Excesses(c: Codec, d: Delivered, keep: set<string>, sites: seq<Site>): seq<nat> {
    seq(|sites|, j requires 0 <= j < |sites| => Excess(c, sites[j], CodeSite(c, d, keep, sites[j])))
  }

  /** One text: what is saved is what it lost, or nothing when it grew. */
  lemma SavedOne(c: Codec, d: Delivered, keep: set<string>, sites: seq<Site>, i: nat, fx: Effects)
    requires i < |sites|
    ensures var w := CodeSite(c, d, keep, sites[i]);
      AfterEach(c, d, keep, sites, i + 1, fx).stats.tokensSaved + c.count(Render(c, w)) ==
      AfterEach(c, d, keep, sites, i, fx).stats.tokensSaved + c.count(sites[i].text) + Excess(c, sites[i], w)
  {
    ReferenceTarget(c, d, sites[i].text);
  }

  function MsgRaw(c: Codec, m: Msg<string>): nat {
    Sum(SiteTokens(c, Sites(m)), |Sites(m)|)
  }

  function MsgSent(c: Codec, m: Msg<Wire>): nat {
    Sum(WireTokens(c, Wires(m)), |Wires(m)|)
  }

  function MsgExcess(c: Codec, keep: set<string>, msgs: Conv, i: nat): nat
    requires i < |msgs|
  {
    var sites := Sites(msgs[i]);
    Sum(Excesses(c, DeliveredBy(c, msgs, i), keep, sites), |sites|)
  }

  /** The sites of one message, one at a time. */
  lemma SavedOverSites(c: Codec, d: Delivered, keep: set<string>, sites: seq<Site>, fx: Effects)
    ensures var n, ws := |sites|, CodeSites(c, d, keep, sites);
      AfterEach(c, d, keep, sites, n, fx).stats.tokensSaved + Sum(WireTokens(c, ws), n) ==
      fx.stats.tokensSaved + Sum(SiteTokens(c, sites), n) + Sum(Excesses(c, d, keep, sites), n)
  {
    var n, ws := |sites|, CodeSites(c, d, keep, sites);
    var saved := seq(n + 1, j requires 0 <= j <= n => AfterEach(c, d, keep, sites, j, fx).stats.tokensSaved);
    var sent, raw, excess := WireTokens(c, ws), SiteTokens(c, sites), Excesses(c, d, keep, sites);
    forall j | 0 <= j < n ensures saved[j + 1] + sent[j] == saved[j] + raw[j] + excess[j] {
      SavedOne(c, d, keep, sites, j, fx);
    }
    Telescope(saved, sent, raw, excess, n);
  }

  lemma SavedInMsg(c: Codec, keep: set<string>, msgs: Conv, i: nat, fx: Effects)
    requires i < |msgs|
    ensures AfterMsgs(c, keep, msgs, i + 1, fx).stats.tokensSaved + MsgSent(c, EncodeAll(c, keep, msgs)[i]) ==
            AfterMsgs(c, keep, msgs, i, fx).stats.tokensSaved + MsgRaw(c, msgs[i]) + MsgExcess(c, keep, msgs, i)
  {
    var d, sites, start := DeliveredBy(c, msgs, i), Sites(msgs[i]), AfterMsgs(c, keep, msgs, i, fx);
    EncodedAt(c, keep, msgs, |msgs|, i);
    WiresOfMsg(c, d, keep, msgs[i]);
    AfterEachIs(c, d, keep, sites, |sites|, start);
    SavedOverSites(c, d, keep, sites, start);
  }

  // ---------------------------------------------------------------- the whole conversation

  function RawTokens(c: Codec, msgs: Conv): seq<nat> {
    seq(|msgs|, i requires 0 <= i < |msgs| => MsgRaw(c, msgs[i]))
  }

  function SentTokens(c: Codec, out: seq<Msg<Wire>>): seq<nat> {
    seq(|out|, i requires 0 <= i < |out| => MsgSent(c, out[i]))
  }

  function AllExcess(c: Codec, keep: set<string>, msgs: Conv): seq<nat> {
    seq(|msgs|, i requires 0 <= i < |msgs| => MsgExcess(c, keep, msgs, i))
  }

  /** The reported savings after each number of messages. */
  function Savings(c: Codec, keep: set<string>, msgs: Conv, fx: Effects): (saved: seq<nat>)
    ensures |saved| == |msgs| + 1
    ensures saved[0] == fx.stats.tokensSaved
    ensures saved[|msgs|] == AfterMsgs(c, keep, msgs, |msgs|, fx).stats.tokensSaved
  {
    seq<nat>(|msgs| + 1, i requires 0 <= i <= |msgs| => AfterMsgs(c, keep, msgs, i, fx).stats.tokensSaved)
  }

  lemma SavingsAt(c: Codec, keep: set<string>, msgs: Conv, fx: Effects, i: nat)
    requires i <= |msgs|
    ensures Savings(c, keep, msgs, fx)[i] == AfterMsgs(c, keep, msgs, i, fx).stats.tokensSaved
  {
  }

  lemma TotalsAt(c: Codec, keep: set<string>, msgs: Conv, i: nat)
    requires i < |msgs|
    ensures SentTokens(c, EncodeAll(c, keep, msgs))[i] == MsgSent(c, EncodeAll(c, keep, msgs)[i])
    ensures RawTokens(c, msgs)[i] == MsgRaw(c, msgs[i]) && AllExcess(c, keep, msgs)[i] == MsgExcess(c, keep, msgs, i)
  {
  }

  lemma SavingsStep(c: Codec, keep: set<string>, msgs: Conv, fx: Effects, i: nat)
    requires i < |msgs|
    ensures Savings(c, keep, msgs, fx)[i + 1] + SentTokens(c, EncodeAll(c, keep, msgs))[i] ==
            Savings(c, keep, msgs, fx)[i] + RawTokens(c, msgs)[i] + AllExcess(c, keep, msgs)[i]
  {
    SavingsAt(c, keep, msgs, fx, i);
    SavingsAt(c, keep, msgs, fx, i + 1);
    TotalsAt(c, keep, msgs, i);
    SavedInMsg(c, keep, msgs, i, fx);
  }

  /** Reported savings and sent tokens add up to the raw tokens and what some texts gained. */
  lemma SavedTokensAre(c: Codec, keep: set<string>, msgs: Conv, fx: Effects)
    ensures var n := |msgs|;
      AfterMsgs(c, keep, msgs, n, fx).stats.tokensSaved + Sum(SentTokens(c, EncodeAll(c, keep, msgs)), n) ==
      fx.stats.tokensSaved + Sum(RawTokens(c, msgs), n) + Sum(AllExcess(c, keep, msgs), n)
  {
    var n, saved := |msgs|, Savings(c, keep, msgs, fx);
    var sent, raw, excess := SentTokens(c, EncodeAll(c, keep, msgs)), RawTokens(c, msgs), AllExcess(c, keep, msgs);
    forall i | 0 <= i < n ensures saved[i + 1] + sent[i] == saved[i] + raw[i] + excess[i] {
      SavingsStep(c, keep, msgs, fx, i);
    }
    Telescope(saved, sent, raw, excess, n);
  }

  /** No text of message i has more tokens as sent than it had. */
  predicate NoneGains(c: Codec, keep: set<string>, msgs: Conv, i: nat)
    requires i < |msgs|
  {
    forall s :: s in Sites(msgs[i]) ==>
      c.count(Render(c, CodeSite(c, DeliveredBy(c, msgs, i), keep, s))) <= c.count(s.text)
  }

  lemma NoneGainsIff(c: Codec, keep: set<string>, msgs: Conv, i: nat)
    requires i < |msgs|
    ensures MsgExcess(c, keep, msgs, i) == 0 <==> NoneGains(c, keep, msgs, i)
  {
    var d, sites := DeliveredBy(c, msgs, i), Sites(msgs[i]);
    var excess := Excesses(c, d, keep, sites);
    SumZeroIff(excess, |sites|);
    forall j | 0 <= j < |sites|
      ensures excess[j] == 0 <==> c.count(Render(c, CodeSite(c, d, keep, sites[j]))) <= c.count(sites[j].text)
    {
    }
    if NoneGains(c, keep, msgs, i) {
      forall j | 0 <= j < |sites| ensures excess[j] == 0 {
        assert sites[j] in sites;
      }
    } else {
      var s :| s in sites && c.count(Render(c, CodeSite(c, d, keep, s))) > c.count(s.text);
      var j :| 0 <= j < |sites| && sites[j] == s;
      assert excess[j] != 0;
    }
  }

  /** The savings reported for a call are exactly the tokens that were not sent iff no text gained
      tokens by being replaced; otherwise they are overstated. */
  lemma SavedIsDifferenceIff(c: Codec, keep: set<string>, msgs: Conv, fx: Effects)
    ensures var n := |msgs|;
      var reported := AfterMsgs(c, keep, msgs, n, fx).stats.tokensSaved - fx.stats.tokensSaved;
      var unsent := Sum(RawTokens(c, msgs), n) - Sum(SentTokens(c, EncodeAll(c, keep, msgs)), n);
      && reported >= unsent
      && (reported == unsent <==> forall i :: 0 <= i < n ==> NoneGains(c, keep, msgs, i))
  {
    SavedTokensAre(c, keep, msgs, fx);
    SumZeroIff(AllExcess(c, keep, msgs), |msgs|);
    forall i | 0 <= i < |msgs| ensures AllExcess(c, keep, msgs)[i] == 0 <==> NoneGains(c, keep, msgs, i) {
      NoneGainsIff(c, keep, msgs, i);
    }
  }
}
