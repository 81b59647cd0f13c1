/**
  What the cache-delta walk guarantees over whole conversations (distil/cachedelta.py): it is a
  function of the prefix, every reference points backwards, exemptions do not leak, and the sent
  conversation plus the restore store gives the original back.
*/
module CacheDeltaLaws {
  import opened Wrappers
  import opened Conversation
  import opened CacheDelta

  // ---------------------------------------------------------------- prefix determinism

  lemma {:induction false} EncodedAt(c: Codec, keep: set<string>, msgs: Conv, n: nat, i: nat)
    requires i < n <= |msgs|
    ensures EncodeUpTo(c, keep, msgs, n)[i] == EncodeMsg(c, DeliveredBy(c, msgs, i), keep, msgs[i])
  {
    if i < n - 1 {
      EncodedAt(c, keep, msgs, n - 1, i);
    }
  }

  lemma {:induction false} DeliveredByPrefix(c: Codec, a: Conv, b: Conv, n: nat)
    requires n <= |a| && n <= |b| && a[..n] == b[..n]
    ensures DeliveredBy(c, a, n) == DeliveredBy(c, b, n)
  {
    if n == 0 {
    } else {
      assert a[n - 1] == a[..n][n - 1] == b[..n][n - 1] == b[n - 1];
      assert a[..n - 1] == a[..n][..n - 1] == b[..n][..n - 1] == b[..n - 1];
      DeliveredByPrefix(c, a, b, n - 1);
    }
  }

  /** Conversations that share their first n messages are sent with the same first n messages. */
  lemma PrefixDeterminism(c: Codec, keep: set<string>, a: Conv, b: Conv, n: nat)
    requires n <= |a| && n <= |b| && a[..n] == b[..n]
    ensures EncodeAll(c, keep, a)[..n] == EncodeAll(c, keep, b)[..n]
  {
    forall i | 0 <= i < n ensures EncodeAll(c, keep, a)[i] == EncodeAll(c, keep, b)[i] {
      EncodedAt(c, keep, a, |a|, i);
      EncodedAt(c, keep, b, |b|, i);
      assert a[i] == a[..n][i] == b[..n][i] == b[i];
      assert a[..i] == a[..n][..i] == b[..n][..i] == b[..i];
      DeliveredByPrefix(c, a, b, i);
    }
  }

  // ---------------------------------------------------------------- exemptions

  /** The site would be replaced if it were not exempt. */
  predicate Replaceable(c: Codec, d: Delivered, s: Site) {
    EncodeText(c, d, s.text) != Verbatim(s.text)
  }

  predicate SameTreatment(c: Codec, d: Delivered, k1: set<string>, k2: set<string>, s: Site) {
    Exempt(s.id, k1) == Exempt(s.id, k2) || !Replaceable(c, d, s)
  }

  lemma PartsAgreeIff(c: Codec, d: Delivered, k1: set<string>, k2: set<string>, parts: seq<Part<string>>,
      id: Option<string>)
    ensures CodeParts(c, d, Exempt(id, k1), parts) == CodeParts(c, d, Exempt(id, k2), parts) <==>
            forall s :: s in PartSites(parts, id, |parts|) ==> SameTreatment(c, d, k1, k2, s)
  {
    var a, b := CodeParts(c, d, Exempt(id, k1), parts), CodeParts(c, d, Exempt(id, k2), parts);
    if a == b {
      forall s | s in PartSites(parts, id, |parts|) ensures SameTreatment(c, d, k1, k2, s) {
        PartSiteAt(parts, id, |parts|, s);
        var i :| 0 <= i < |parts| && parts[i].TextPart? && s == Site(parts[i].text, id);
        assert a[i] == b[i];
      }
    }
    if forall s :: s in PartSites(parts, id, |parts|) ==> SameTreatment(c, d, k1, k2, s) {
      forall i | 0 <= i < |parts| ensures a[i] == b[i] {
        if parts[i].TextPart? {
          PartSiteAt(parts, id, |parts|, Site(parts[i].text, id));
        }
      }
    }
  }

  lemma BlockAgreesIff(c: Codec, d: Delivered, k1: set<string>, k2: set<string>, b: Block<string>)
    ensures CodeBlock(c, d, k1, b) == CodeBlock(c, d, k2, b) <==>
            forall s :: SiteOfBlock(b, s) ==> SameTreatment(c, d, k1, k2, s)
  {
    match b
    case TextResult(id, text, _) =>
      assert SiteOfBlock(b, Site(text, id));
    case PartsResult(id, parts, _) =>
      PartsAgreeIff(c, d, k1, k2, parts, id);
      forall s ensures s in PartSites(parts, id, |parts|) <==> SiteOfBlock(b, s) {
        PartSiteAt(parts, id, |parts|, s);
      }
    case OtherBlock(_) =>
  }

  /** A message is sent alike under two exemption sets iff no site that only one of them exempts
      would be replaced. */
  lemma MsgAgreesIff(c: Codec, d: Delivered, k1: set<string>, k2: set<string>, m: Msg<string>)
    ensures EncodeMsg(c, d, k1, m) == EncodeMsg(c, d, k2, m) <==>
            forall s :: s in Sites(m) ==> SameTreatment(c, d, k1, k2, s)
  {
    match m
    case TextMsg(role, id, text, _) =>
      if role != OtherRole {
        assert Site(text, id) in Sites(m);
      }
    case ToolListMsg(id, parts, _) =>
      PartsAgreeIff(c, d, k1, k2, parts, id);
    case BlockListMsg(blocks, _) =>
      BlocksAgreeIff(c, d, k1, k2, blocks);
    case OpaqueMsg(_) =>
  }

  lemma BlocksAgreeIff(c: Codec, d: Delivered, k1: set<string>, k2: set<string>, blocks: seq<Block<string>>)
    ensures CodeBlocks(c, d, k1, blocks) == CodeBlocks(c, d, k2, blocks) <==>
            forall s :: s in BlockSites(blocks, |blocks|) ==> SameTreatment(c, d, k1, k2, s)
  {
    var a, b := CodeBlocks(c, d, k1, blocks), CodeBlocks(c, d, k2, blocks);
    if a == b {
      forall s | s in BlockSites(blocks, |blocks|) ensures SameTreatment(c, d, k1, k2, s) {
        BlockSiteAt(blocks, |blocks|, s);
        var i :| 0 <= i < |blocks| && SiteOfBlock(blocks[i], s);
        assert a[i] == b[i];
        BlockAgreesIff(c, d, k1, k2, blocks[i]);
      }
    }
    if forall s :: s in BlockSites(blocks, |blocks|) ==> SameTreatment(c, d, k1, k2, s) {
      forall i | 0 <= i < |blocks| ensures a[i] == b[i] {
        forall s | SiteOfBlock(blocks[i], s) ensures SameTreatment(c, d, k1, k2, s) {
          BlockSiteAt(blocks, |blocks|, s);
        }
        BlockAgreesIff(c, d, k1, k2, blocks[i]);
      }
    }
  }

  /** When the exemptions differ between two calls, the shared first n messages are sent alike iff no
      site in them whose exemption differs would be replaced. */
  lemma PrefixKeptIff(c: Codec, k1: set<string>, k2: set<string>, a: Conv, b: Conv, n: nat)
    requires n <= |a| && n <= |b| && a[..n] == b[..n]
    ensures EncodeAll(c, k1, a)[..n] == EncodeAll(c, k2, b)[..n] <==>
            forall i, s :: 0 <= i < n && s in Sites(a[i]) ==> SameTreatment(c, DeliveredBy(c, a, i), k1, k2, s)
  {
    var x, y := EncodeAll(c, k1, a), EncodeAll(c, k2, a);
    PrefixDeterminism(c, k2, a, b, n);
    forall i | 0 <= i < n
      ensures x[i] == y[i] <==> forall s :: s in Sites(a[i]) ==> SameTreatment(c, DeliveredBy(c, a, i), k1, k2, s)
    {
      EncodedAt(c, k1, a, |a|, i);
      EncodedAt(c, k2, a, |a|, i);
      MsgAgreesIff(c, DeliveredBy(c, a, i), k1, k2, a[i]);
    }
    assert x[..n] == y[..n] <==> forall i :: 0 <= i < n ==> x[i] == y[i] by {
      if x[..n] == y[..n] {
        forall i | 0 <= i < n ensures x[i] == y[i] {
          assert x[..n][i] == y[..n][i];
        }
      }
    }
  }

  // ---------------------------------------------------------------- site by site

  function PartWires(parts: seq<Part<Wire>>, n: nat): seq<Wire>
    requires n <= |parts|
  {
    if n == 0 then []
    else
      var ws := PartWires(parts, n - 1);
      if parts[n - 1].TextPart? then ws + [parts[n - 1].text] else ws
  }

  function BlockWires(blocks: seq<Block<Wire>>, n: nat): seq<Wire>
    requires n <= |blocks|
  {
    if n == 0 then []
    else
      var ws := BlockWires(blocks, n - 1);
      match blocks[n - 1]
      case TextResult(_, w, _) => ws + [w]
      case PartsResult(_, parts, _) => ws + PartWires(parts, |parts|)
      case OtherBlock(_) => ws
  }

  /** What the sites of a message were sent as, in the order of the sites. */
  function Wires(m: Msg<Wire>): seq<Wire> {
    match m
    case TextMsg(role, _, w, _) => if role == OtherRole then [] else [w]
    case ToolListMsg(_, parts, _) => PartWires(parts, |parts|)
    case BlockListMsg(blocks, _) => BlockWires(blocks, |blocks|)
    case OpaqueMsg(_) => []
  }

  function CodeSite(c: Codec, d: Delivered, keep: set<string>, s: Site): Wire {
    if Exempt(s.id, keep) then Verbatim(s.text) else EncodeText(c, d, s.text)
  }

  function CodeSites(c: Codec, d: Delivered, keep: set<string>, sites: seq<Site>): seq<Wire> {
    seq(|sites|, j requires 0 <= j < |sites| => CodeSite(c, d, keep, sites[j]))
  }

  lemma {:induction false} WiresOfParts(c: Codec, d: Delivered, keep: set<string>, parts: seq<Part<string>>,
                                        id: Option<string>, n: nat)
    requires n <= |parts|
    ensures PartWires(CodeParts(c, d, Exempt(id, keep), parts), n) == CodeSites(c, d, keep, PartSites(parts, id, n))
  {
    if n == 0 {
    } else {
      WiresOfParts(c, d, keep, parts, id, n - 1);
    }
  }

  lemma {:induction false} WiresOfBlocks(c: Codec, d: Delivered, keep: set<string>, blocks: seq<Block<string>>, n: nat)
    requires n <= |blocks|
    ensures BlockWires(CodeBlocks(c, d, keep, blocks), n) == CodeSites(c, d, keep, BlockSites(blocks, n))
  {
    if n == 0 {
    } else {
      WiresOfBlocks(c, d, keep, blocks, n - 1);
      match blocks[n - 1]
      case TextResult(_, _, _) =>
      case PartsResult(id, parts, _) => WiresOfParts(c, d, keep, parts, id, |parts|);
      case OtherBlock(_) =>
    }
  }

  lemma WiresOfMsg(c: Codec, d: Delivered, keep: set<string>, m: Msg<string>)
    ensures Wires(EncodeMsg(c, d, keep, m)) == CodeSites(c, d, keep, Sites(m))
  {
    match m
    case TextMsg(_, _, _, _) =>
    case ToolListMsg(id, parts, _) => WiresOfParts(c, d, keep, parts, id, |parts|);
    case BlockListMsg(blocks, _) => WiresOfBlocks(c, d, keep, blocks, |blocks|);
    case OpaqueMsg(_) =>
  }

  /** Exempt texts go out as they are; every other text, in whatever message, goes out exactly as if
      nothing were exempt, so exempt blocks still serve as bases. */
  lemma ExemptionsDoNotLeak(c: Codec, keep: set<string>, msgs: Conv, i: nat)
    requires i < |msgs|
    ensures var sites, ws, free := Sites(msgs[i]), Wires(EncodeAll(c, keep, msgs)[i]), Wires(EncodeAll(c, {}, msgs)[i]);
      && |ws| == |free| == |sites|
      && forall j :: 0 <= j < |sites| ==>
           ws[j] == if Exempt(sites[j].id, keep) then Verbatim(sites[j].text) else free[j]
  {
    EncodedAt(c, keep, msgs, |msgs|, i);
    EncodedAt(c, {}, msgs, |msgs|, i);
    WiresOfMsg(c, DeliveredBy(c, msgs, i), keep, msgs[i]);
    WiresOfMsg(c, DeliveredBy(c, msgs, i), {}, msgs[i]);
  }

  /** Number of references of one kind among the first n wires. */
  function CountRefs(ws: seq<Wire>, n: nat, exact: bool): nat
    requires n <= |ws|
  {
    if n == 0 then 0
    else CountRefs(ws, n - 1, exact) +
         if !ws[n - 1].Verbatim? && ws[n - 1].ExactRef? == exact then 1 else 0
  }

  function CountSent(out: seq<Msg<Wire>>, n: nat, exact: bool): nat
    requires n <= |out|
  {
    if n == 0 then 0
    else CountSent(out, n - 1, exact) + CountRefs(Wires(out[n - 1]), |Wires(out[n - 1])|, exact)
  }

  /** The effects of the first n sites, one at a time. */
  function AfterEach(c: Codec, d: Delivered, keep: set<string>, sites: seq<Site>, n: nat, fx: Effects): Effects
    requires n <= |sites|
  {
    if n == 0 then fx
    else
      var before := AfterEach(c, d, keep, sites, n - 1, fx);
      if Exempt(sites[n - 1].id, keep) then before else AfterText(c, d, sites[n - 1].text, before)
  }

  lemma AfterOneMore(c: Codec, d: Delivered, keep: set<string>, sites: seq<Site>, n: nat, fx: Effects)
    requires n < |sites|
    ensures var before, texts := Targets(sites, keep, n), Targets(sites, keep, n + 1);
      AfterTexts(c, d, texts, |texts|, fx) ==
      if Exempt(sites[n].id, keep) then AfterTexts(c, d, before, |before|, fx)
      else AfterText(c, d, sites[n].text, AfterTexts(c, d, before, |before|, fx))
  {
    var before, texts := Targets(sites, keep, n), Targets(sites, keep, n + 1);
    AfterPrefix(c, d, before, texts, |before|, fx);
  }

  lemma {:induction false} AfterEachIs(c: Codec, d: Delivered, keep: set<string>, sites: seq<Site>, n: nat, fx: Effects)
    requires n <= |sites|
    ensures var texts := Targets(sites, keep, n);
      AfterTexts(c, d, texts, |texts|, fx) == AfterEach(c, d, keep, sites, n, fx)
  {
    if n == 0 {
    } else {
      AfterEachIs(c, d, keep, sites, n - 1, fx);
      AfterOneMore(c, d, keep, sites, n - 1, fx);
    }
  }

  /** Counting one text's wire: the statistics before and after. */
  predicate Counts(before: CacheStats, w: Wire, after: CacheStats) {
    && after.prefixMsgs == before.prefixMsgs
    && after.exactRefs == before.exactRefs + (if w.ExactRef? then 1 else 0)
    && after.deltaRefs == before.deltaRefs + (if w.DiffRef? || w.AstRef? then 1 else 0)
  }

  lemma {:induction false} CountsAddUp(stats: seq<CacheStats>, ws: seq<Wire>, n: nat)
    requires n <= |ws| && n < |stats|
    requires forall i :: 0 <= i < n ==> Counts(stats[i], ws[i], stats[i + 1])
    ensures stats[n].prefixMsgs == stats[0].prefixMsgs
    ensures stats[n].exactRefs == stats[0].exactRefs + CountRefs(ws, n, true)
    ensures stats[n].deltaRefs == stats[0].deltaRefs + CountRefs(ws, n, false)
  {
    if n == 0 {
    } else {
      CountsAddUp(stats, ws, n - 1);
      assert Counts(stats[n - 1], ws[n - 1], stats[n]);
    }
  }

  lemma SiteCounts(c: Codec, d: Delivered, keep: set<string>, sites: seq<Site>, i: nat, fx: Effects)
    requires i < |sites|
    ensures Counts(AfterEach(c, d, keep, sites, i, fx).stats, CodeSite(c, d, keep, sites[i]),
                   AfterEach(c, d, keep, sites, i + 1, fx).stats)
  {
  }

  /** The statistics gain the references among a message's wires. */
  predicate CountsAll(before: CacheStats, ws: seq<Wire>, after: CacheStats) {
    && after.prefixMsgs == before.prefixMsgs
    && after.exactRefs == before.exactRefs + CountRefs(ws, |ws|, true)
    && after.deltaRefs == before.deltaRefs + CountRefs(ws, |ws|, false)
  }

  lemma MsgCounts(c: Codec, keep: set<string>, msgs: Conv, i: nat, fx: Effects)
    requires i < |msgs|
    ensures CountsAll(AfterMsgs(c, keep, msgs, i, fx).stats, Wires(EncodeAll(c, keep, msgs)[i]),
                      AfterMsgs(c, keep, msgs, i + 1, fx).stats)
  {
    var d, sites, start := DeliveredBy(c, msgs, i), Sites(msgs[i]), AfterMsgs(c, keep, msgs, i, fx);
    var n, ws := |sites|, CodeSites(c, d, keep, sites);
    var stats := seq(n + 1, j requires 0 <= j <= n => AfterEach(c, d, keep, sites, j, start).stats);
    forall j | 0 <= j < n ensures Counts(stats[j], ws[j], stats[j + 1]) {
      SiteCounts(c, d, keep, sites, j, start);
    }
    CountsAddUp(stats, ws, n);
    AfterEachIs(c, d, keep, sites, n, start);
    EncodedAt(c, keep, msgs, |msgs|, i);
    WiresOfMsg(c, d, keep, msgs[i]);
  }

  lemma {:induction false} MsgCountsAddUp(stats: seq<CacheStats>, out: seq<Msg<Wire>>, n: nat)
    requires n <= |out| && n < |stats|
    requires forall i :: 0 <= i < n ==> CountsAll(stats[i], Wires(out[i]), stats[i + 1])
    ensures stats[n].prefixMsgs == stats[0].prefixMsgs
    ensures stats[n].exactRefs == stats[0].exactRefs + CountSent(out, n, true)
    ensures stats[n].deltaRefs == stats[0].deltaRefs + CountSent(out, n, false)
  {
    if n == 0 {
    } else {
      MsgCountsAddUp(stats, out, n - 1);
      assert CountsAll(stats[n - 1], Wires(out[n - 1]), stats[n]);
    }
  }

  /** The statistics after each number of messages. */
  function StatsSoFar(c: Codec, keep: set<string>, msgs: Conv, fx: Effects): (stats: seq<CacheStats>)
    ensures |stats| == |msgs| + 1 && stats[0] == fx.stats
    ensures stats[|msgs|] == AfterMsgs(c, keep, msgs, |msgs|, fx).stats
  {
    seq(|msgs| + 1, i requires 0 <= i <= |msgs| => AfterMsgs(c, keep, msgs, i, fx).stats)
  }

  lemma StatsAt(c: Codec, keep: set<string>, msgs: Conv, fx: Effects, i: nat)
    requires i <= |msgs|
    ensures StatsSoFar(c, keep, msgs, fx)[i] == AfterMsgs(c, keep, msgs, i, fx).stats
  {
  }

  lemma StatsStep(c: Codec, keep: set<string>, msgs: Conv, fx: Effects, i: nat)
    requires i < |msgs|
    ensures var stats := StatsSoFar(c, keep, msgs, fx);
      CountsAll(stats[i], Wires(EncodeAll(c, keep, msgs)[i]), stats[i + 1])
  {
    StatsAt(c, keep, msgs, fx, i);
    StatsAt(c, keep, msgs, fx, i + 1);
    MsgCounts(c, keep, msgs, i, fx);
  }

  /** The reported counts are the numbers of references actually sent. */
  lemma StatsCountReferences(c: Codec, keep: set<string>, msgs: Conv, fx: Effects)
    ensures var n := |msgs|;
      var stats, out := AfterMsgs(c, keep, msgs, n, fx).stats, EncodeAll(c, keep, msgs);
      && stats.prefixMsgs == fx.stats.prefixMsgs
      && stats.exactRefs == fx.stats.exactRefs + CountSent(out, n, true)
      && stats.deltaRefs == fx.stats.deltaRefs + CountSent(out, n, false)
  {
    var n, out, stats := |msgs|, EncodeAll(c, keep, msgs), StatsSoFar(c, keep, msgs, fx);
    forall i | 0 <= i < n ensures CountsAll(stats[i], Wires(out[i]), stats[i + 1]) {
      StatsStep(c, keep, msgs, fx, i);
    }
    MsgCountsAddUp(stats, out, n);
  }

  // ---------------------------------------------------------------- references point backwards

  /** A block text of at least MIN_CHARS that message i delivers. */
  predicate Delivers(msgs: Conv, i: nat, text: string)
    requires i < |msgs|
  {
    |text| >= MIN_CHARS && text in MsgTargets(msgs[i], {})
  }

  predicate DeliveredEarlier(c: Codec, msgs: Conv, n: nat, e: (string, string))
    requires n <= |msgs|
  {
    e.0 == c.handle(e.1) && exists i :: 0 <= i < n && Delivers(msgs, i, e.1)
  }

  predicate UniqueHandles(d: Delivered) {
    forall i, j :: 0 <= i < j < |d| ==> d[i].0 != d[j].0
  }

  lemma PutKeeps(d: Delivered, h: string, text: string, k: string, e: (string, string))
    requires UniqueHandles(d)
    ensures var d' := Put(d, h, text);
      UniqueHandles(d') && Has(d', h) && (Has(d, k) ==> Has(d', k)) && (e in d' ==> e in d || e == (h, text))
  {
    var d' := Put(d, h, text);
    assert d'[if Has(d, h) then Find(d, h) else |d|] == (h, text);
    if Has(d, k) {
      assert d'[Find(d, k)].0 == k;
    }
  }

  lemma {:induction false} DeliverUnique(c: Codec, d: Delivered, texts: seq<string>, n: nat)
    requires n <= |texts| && UniqueHandles(d)
    ensures UniqueHandles(Deliver(c, d, texts, n))
  {
    if n == 0 {
    } else {
      DeliverUnique(c, d, texts, n - 1);
      PutKeeps(Deliver(c, d, texts, n - 1), c.handle(texts[n - 1]), texts[n - 1], "", ("", ""));
    }
  }

  lemma {:induction false} DeliverFrom(c: Codec, d: Delivered, texts: seq<string>, n: nat, e: (string, string))
    requires n <= |texts| && UniqueHandles(d) && e in Deliver(c, d, texts, n)
    ensures e in d || (e.0 == c.handle(e.1) && |e.1| >= MIN_CHARS && e.1 in texts)
  {
    if n > 0 && e !in Deliver(c, d, texts, n - 1) {
      DeliverUnique(c, d, texts, n - 1);
      PutKeeps(Deliver(c, d, texts, n - 1), c.handle(texts[n - 1]), texts[n - 1], "", e);
    } else if n > 0 {
      DeliverFrom(c, d, texts, n - 1, e);
    }
  }

  lemma {:induction false} DeliverHas(c: Codec, d: Delivered, texts: seq<string>, n: nat, h: string)
    requires n <= |texts| && UniqueHandles(d)
    requires Has(d, h) || exists j :: 0 <= j < n && |texts[j]| >= MIN_CHARS && c.handle(texts[j]) == h
    ensures Has(Deliver(c, d, texts, n), h)
  {
    if n == 0 {
    } else {
      DeliverUnique(c, d, texts, n - 1);
      PutKeeps(Deliver(c, d, texts, n - 1), c.handle(texts[n - 1]), texts[n - 1], h, ("", ""));
      if |texts[n - 1]| < MIN_CHARS || c.handle(texts[n - 1]) != h {
        DeliverHas(c, d, texts, n - 1, h);
      }
    }
  }

  lemma {:induction false} DeliveredByUnique(c: Codec, msgs: Conv, n: nat)
    requires n <= |msgs|
    ensures UniqueHandles(DeliveredBy(c, msgs, n))
  {
    if n == 0 {
    } else {
      DeliveredByUnique(c, msgs, n - 1);
      var texts := MsgTargets(msgs[n - 1], {});
      DeliverUnique(c, DeliveredBy(c, msgs, n - 1), texts, |texts|);
    }
  }

  /** Every delivered block is an earlier message's large text under its own handle. */
  lemma {:induction false} DeliveredByFrom(c: Codec, msgs: Conv, n: nat, e: (string, string))
    requires n <= |msgs| && e in DeliveredBy(c, msgs, n)
    ensures DeliveredEarlier(c, msgs, n, e)
  {
    if n == 0 {
    } else {
      var texts, before := MsgTargets(msgs[n - 1], {}), DeliveredBy(c, msgs, n - 1);
      DeliveredByUnique(c, msgs, n - 1);
      if e in before {
        DeliveredByFrom(c, msgs, n - 1, e);
      } else {
        DeliverFrom(c, before, texts, |texts|, e);
        assert Delivers(msgs, n - 1, e.1);
      }
    }
  }

  /** Every large text of an earlier message has its handle among the delivered ones. */
  lemma {:induction false} DeliveredByHas(c: Codec, msgs: Conv, n: nat, i: nat, text: string)
    requires i < n <= |msgs| && Delivers(msgs, i, text)
    ensures Has(DeliveredBy(c, msgs, n), c.handle(text))
  {
    var texts, before := MsgTargets(msgs[n - 1], {}), DeliveredBy(c, msgs, n - 1);
    DeliveredByUnique(c, msgs, n - 1);
    if i < n - 1 {
      DeliveredByHas(c, msgs, n - 1, i, text);
    } else {
      var j :| 0 <= j < |texts| && texts[j] == text;
    }
    DeliverHas(c, before, texts, |texts|, c.handle(text));
  }

  /** What a reference sent after the blocks in d refers to is among them; a base is one of the last
      twelve and is stored under the handle the marker names. */
  lemma ReferenceTarget(c: Codec, d: Delivered, text: string)
    ensures match EncodeText(c, d, text)
      case Verbatim(t) => t == text
      case ExactRef(h, _) => h == c.handle(text) && Has(d, h)
      case DiffRef(bh, h, diff, _) =>
        && h == c.handle(text)
        && exists e: (string, string) :: e in LastBases(d) && e.0 == bh && diff == c.diff(bh, e.1, text)
      case AstRef(bh, h, _) =>
        h == c.handle(text) && exists e: (string, string) :: e in LastBases(d) && e.0 == bh
  {
    var bases := LastBases(d);
    var best := BestBase(c, text, bases, |bases|);
    if best.Some? {
      assert bases[best.value] in bases;
    }
  }

  /** A text is only ever replaced by something strictly shorter, structural deltas included. */
  lemma ReferencesAreShorter(c: Codec, d: Delivered, text: string)
    ensures |Render(c, EncodeText(c, d, text))| <= |text|
    ensures EncodeText(c, d, text) != Verbatim(text) ==> |Render(c, EncodeText(c, d, text))| < |text|
  {
    var bases := LastBases(d);
    var best := BestBase(c, text, bases, |bases|);
    if best.Some? {
      var (bh, bt) := bases[best.value];
      var delta := AstDelta.Structural(c.segments(bt), c.segments(text), AstLength(c, bh, c.handle(text)), |text|);
      assert delta.Some? ==> |c.marker(AstRef(bh, c.handle(text), delta.value))| < |text|;
    }
  }

  /** Every reference in message i refers to a block some strictly earlier message delivered. */
  lemma ReferencesPointBackwards(c: Codec, msgs: Conv, i: nat, text: string)
    requires i < |msgs|
    ensures match EncodeText(c, DeliveredBy(c, msgs, i), text)
      case Verbatim(_) => true
      case ExactRef(h, _) => exists e: (string, string) :: e.0 == h && DeliveredEarlier(c, msgs, i, e)
      case DiffRef(bh, _, diff, _) =>
        exists e: (string, string) :: e.0 == bh && DeliveredEarlier(c, msgs, i, e) && diff == c.diff(bh, e.1, text)
      case AstRef(bh, _, _) => exists e: (string, string) :: e.0 == bh && DeliveredEarlier(c, msgs, i, e)
  {
    var d := DeliveredBy(c, msgs, i);
    ReferenceTarget(c, d, text);
    match EncodeText(c, d, text)
    case Verbatim(_) =>
    case ExactRef(h, _) =>
      DeliveredByFrom(c, msgs, i, d[Find(d, h)]);
    case DiffRef(bh, _, diff, _) =>
      var e :| e in LastBases(d) && e.0 == bh && diff == c.diff(bh, e.1, text);
      DeliveredByFrom(c, msgs, i, e);
    case AstRef(bh, _, _) =>
      var e :| e in LastBases(d) && e.0 == bh;
      DeliveredByFrom(c, msgs, i, e);
  }

  // ---------------------------------------------------------------- reading a sent conversation

  /** How references are resolved: by handle from the restore store, or, where that is possible, from
      the blocks read so far, a diff being applied to its base. */
  datatype Reader =
    | FromStore(entries: map<string, string>)
    | InContext(entries: map<string, string>, seen: Delivered, patch: (string, string) -> string)

  function SeenText(d: Delivered, h: string): string {
    if Has(d, h) then d[Find(d, h)].1 else ""
  }

  /** An unresolvable handle reads as the empty text, which no reference stands for. */
  function Read(r: Reader, w: Wire): string {
    if w.Verbatim? then w.text
    else if r.FromStore? || w.AstRef? then Lookup(r.entries, w.handle)
    else if w.ExactRef? then SeenText(r.seen, w.handle)
    else r.patch(SeenText(r.seen, w.baseHandle), w.diff)
  }

  function ReadPart(r: Reader, p: Part<Wire>): Part<string> {
    match p
    case TextPart(w, rest) => TextPart(Read(r, w), rest)
    case OtherPart(rest) => OtherPart(rest)
  }

  function ReadParts(r: Reader, parts: seq<Part<Wire>>): seq<Part<string>> {
    seq(|parts|, i requires 0 <= i < |parts| => ReadPart(r, parts[i]))
  }

  function ReadBlock(r: Reader, b: Block<Wire>): Block<string> {
    match b
    case TextResult(id, w, rest) => TextResult(id, Read(r, w), rest)
    case PartsResult(id, parts, rest) => PartsResult(id, ReadParts(r, parts), rest)
    case OtherBlock(rest) => OtherBlock(rest)
  }

  function ReadBlocks(r: Reader, blocks: seq<Block<Wire>>): seq<Block<string>> {
    seq(|blocks|, i requires 0 <= i < |blocks| => ReadBlock(r, blocks[i]))
  }

  function ReadMsg(r: Reader, m: Msg<Wire>): Msg<string> {
    match m
    case TextMsg(role, id, w, rest) => TextMsg(role, id, Read(r, w), rest)
    case ToolListMsg(id, parts, rest) => ToolListMsg(id, ReadParts(r, parts), rest)
    case BlockListMsg(blocks, rest) => BlockListMsg(ReadBlocks(r, blocks), rest)
    case OpaqueMsg(rest) => OpaqueMsg(rest)
  }

  predicate ReadsBack(r: Reader, c: Codec, d: Delivered, keep: set<string>, s: Site) {
    Exempt(s.id, keep) || Read(r, EncodeText(c, d, s.text)) == s.text
  }

  lemma PartsReadBackIff(r: Reader, c: Codec, d: Delivered, keep: set<string>, parts: seq<Part<string>>,
      id: Option<string>)
    ensures ReadParts(r, CodeParts(c, d, Exempt(id, keep), parts)) == parts <==>
            forall s :: s in PartSites(parts, id, |parts|) ==> ReadsBack(r, c, d, keep, s)
  {
    var back := ReadParts(r, CodeParts(c, d, Exempt(id, keep), parts));
    if back == parts {
      forall s | s in PartSites(parts, id, |parts|) ensures ReadsBack(r, c, d, keep, s) {
        PartSiteAt(parts, id, |parts|, s);
        var i :| 0 <= i < |parts| && parts[i].TextPart? && s == Site(parts[i].text, id);
        assert back[i] == parts[i];
      }
    }
    if forall s :: s in PartSites(parts, id, |parts|) ==> ReadsBack(r, c, d, keep, s) {
      forall i | 0 <= i < |parts| ensures back[i] == parts[i] {
        if parts[i].TextPart? {
          PartSiteAt(parts, id, |parts|, Site(parts[i].text, id));
        }
      }
    }
  }

  lemma BlockReadsBackIff(r: Reader, c: Codec, d: Delivered, keep: set<string>, b: Block<string>)
    ensures ReadBlock(r, CodeBlock(c, d, keep, b)) == b <==>
            forall s :: SiteOfBlock(b, s) ==> ReadsBack(r, c, d, keep, s)
  {
    match b
    case TextResult(id, text, _) =>
      assert SiteOfBlock(b, Site(text, id));
    case PartsResult(id, parts, _) =>
      PartsReadBackIff(r, c, d, keep, parts, id);
      forall s ensures s in PartSites(parts, id, |parts|) <==> SiteOfBlock(b, s) {
        PartSiteAt(parts, id, |parts|, s);
      }
    case OtherBlock(_) =>
  }

  lemma BlocksReadBackIff(r: Reader, c: Codec, d: Delivered, keep: set<string>, blocks: seq<Block<string>>)
    ensures ReadBlocks(r, CodeBlocks(c, d, keep, blocks)) == blocks <==>
            forall s :: s in BlockSites(blocks, |blocks|) ==> ReadsBack(r, c, d, keep, s)
  {
    var back := ReadBlocks(r, CodeBlocks(c, d, keep, blocks));
    if back == blocks {
      forall s | s in BlockSites(blocks, |blocks|) ensures ReadsBack(r, c, d, keep, s) {
        BlockSiteAt(blocks, |blocks|, s);
        var i :| 0 <= i < |blocks| && SiteOfBlock(blocks[i], s);
        assert back[i] == blocks[i];
        BlockReadsBackIff(r, c, d, keep, blocks[i]);
      }
    }
    if forall s :: s in BlockSites(blocks, |blocks|) ==> ReadsBack(r, c, d, keep, s) {
      forall i | 0 <= i < |blocks| ensures back[i] == blocks[i] {
        forall s | SiteOfBlock(blocks[i], s) ensures ReadsBack(r, c, d, keep, s) {
          BlockSiteAt(blocks, |blocks|, s);
        }
        BlockReadsBackIff(r, c, d, keep, blocks[i]);
      }
    }
  }

  /** Nothing but its sites' texts changes in a message, so it reads back iff they all do. */
  lemma MsgReadsBackIff(r: Reader, c: Codec, d: Delivered, keep: set<string>, m: Msg<string>)
    ensures ReadMsg(r, EncodeMsg(c, d, keep, m)) == m <==>
            forall s :: s in Sites(m) ==> ReadsBack(r, c, d, keep, s)
  {
    match m
    case TextMsg(role, id, text, _) =>
      if role != OtherRole {
        assert Site(text, id) in Sites(m);
      }
    case ToolListMsg(id, parts, _) =>
      PartsReadBackIff(r, c, d, keep, parts, id);
    case BlockListMsg(blocks, _) =>
      BlocksReadBackIff(r, c, d, keep, blocks);
    case OpaqueMsg(_) =>
  }

  function ReadAll(r: Reader, out: seq<Msg<Wire>>): Conv {
    seq(|out|, i requires 0 <= i < |out| => ReadMsg(r, out[i]))
  }

  // ---------------------------------------------------------------- decoding from the restore store

  /** The first text recorded under h while the first n of the texts are transformed. */
  function FirstRecorded(c: Codec, d: Delivered, texts: seq<string>, n: nat, h: string): Option<string>
    requires n <= |texts|
  {
    if n == 0 then None
    else
      var r := FirstRecorded(c, d, texts, n - 1, h);
      if r.None? && Recorded(c, d, texts[n - 1]) && c.handle(texts[n - 1]) == h then Some(texts[n - 1]) else r
  }

  lemma {:induction false} FirstRecordedIs(c: Codec, d: Delivered, texts: seq<string>, n: nat, h: string)
    requires n <= |texts|
    ensures var r := FirstRecorded(c, d, texts, n, h);
      && (r.Some? ==> r.value in texts && |r.value| >= MIN_CHARS && c.handle(r.value) == h)
      && (r.None? ==> forall j :: 0 <= j < n && Recorded(c, d, texts[j]) ==> c.handle(texts[j]) != h)
  {
    if n == 0 {
    } else {
      FirstRecordedIs(c, d, texts, n - 1, h);
    }
  }

  /** The first text recorded under h while the first n messages are encoded. */
  function FirstRecordedBy(c: Codec, keep: set<string>, msgs: Conv, n: nat, h: string): Option<string>
    requires n <= |msgs|
  {
    if n == 0 then None
    else
      var r, texts := FirstRecordedBy(c, keep, msgs, n - 1, h), MsgTargets(msgs[n - 1], keep);
      if r.Some? then r else FirstRecorded(c, DeliveredBy(c, msgs, n - 1), texts, |texts|, h)
  }

  /** The text that handle h stands for in the store after the run: an entry that was there before
      wins, then the first text recorded under it. */
  function Owner(c: Codec, keep: set<string>, msgs: Conv, entries: map<string, string>, h: string): Option<string> {
    if h in entries then Some(entries[h]) else FirstRecordedBy(c, keep, msgs, |msgs|, h)
  }

  lemma {:induction false} EntriesAfterTexts(c: Codec, d: Delivered, texts: seq<string>, n: nat, fx: Effects, h: string)
    requires n <= |texts|
    ensures Get(AfterTexts(c, d, texts, n, fx).entries, h) ==
            if h in fx.entries then Some(fx.entries[h]) else FirstRecorded(c, d, texts, n, h)
  {
    if n == 0 {
    } else {
      EntriesAfterTexts(c, d, texts, n - 1, fx, h);
    }
  }

  lemma {:induction false} EntriesAfterMsgs(c: Codec, keep: set<string>, msgs: Conv, n: nat, fx: Effects, h: string)
    requires n <= |msgs|
    ensures Get(AfterMsgs(c, keep, msgs, n, fx).entries, h) ==
            if h in fx.entries then Some(fx.entries[h]) else FirstRecordedBy(c, keep, msgs, n, h)
  {
    if n == 0 {
    } else {
      EntriesAfterMsgs(c, keep, msgs, n - 1, fx, h);
      var texts := MsgTargets(msgs[n - 1], keep);
      EntriesAfterTexts(c, DeliveredBy(c, msgs, n - 1), texts, |texts|, AfterMsgs(c, keep, msgs, n - 1, fx), h);
    }
  }

  /** The sites of a conversation that are sent as references. */
  predicate ReplacedSite(c: Codec, keep: set<string>, msgs: Conv, i: nat, s: Site)
    requires i < |msgs|
  {
    s in Sites(msgs[i]) && !Exempt(s.id, keep) && Replaceable(c, DeliveredBy(c, msgs, i), s)
  }

  lemma SiteReadsBackIff(c: Codec, d: Delivered, keep: set<string>, s: Site, entries: map<string, string>)
    ensures ReadsBack(FromStore(entries), c, d, keep, s) <==>
            (!Exempt(s.id, keep) && Replaceable(c, d, s) ==> Get(entries, c.handle(s.text)) == Some(s.text))
  {
    ReferenceTarget(c, d, s.text);
  }

  /** Exactly when the sent conversation and the restore store give back the original, byte for byte:
      every replaced text owns its handle in the store. */
  lemma StoreDecodesIff(c: Codec, keep: set<string>, msgs: Conv, fx: Effects)
    ensures var after := AfterMsgs(c, keep, msgs, |msgs|, fx);
      ReadAll(FromStore(after.entries), EncodeAll(c, keep, msgs)) == msgs <==>
      forall i, s :: 0 <= i < |msgs| && ReplacedSite(c, keep, msgs, i, s) ==>
        Owner(c, keep, msgs, fx.entries, c.handle(s.text)) == Some(s.text)
  {
    var entries := AfterMsgs(c, keep, msgs, |msgs|, fx).entries;
    var r, out := FromStore(entries), EncodeAll(c, keep, msgs);
    forall h ensures Get(entries, h) == Owner(c, keep, msgs, fx.entries, h) {
      EntriesAfterMsgs(c, keep, msgs, |msgs|, fx, h);
    }
    forall i | 0 <= i < |msgs|
      ensures ReadMsg(r, out[i]) == msgs[i] <==>
        forall s :: ReplacedSite(c, keep, msgs, i, s) ==>
          Owner(c, keep, msgs, fx.entries, c.handle(s.text)) == Some(s.text)
    {
      var d := DeliveredBy(c, msgs, i);
      EncodedAt(c, keep, msgs, |msgs|, i);
      MsgReadsBackIff(r, c, d, keep, msgs[i]);
      forall s ensures ReadsBack(r, c, d, keep, s) <==>
        (!Exempt(s.id, keep) && Replaceable(c, d, s) ==> Get(entries, c.handle(s.text)) == Some(s.text))
      {
        SiteReadsBackIff(c, d, keep, s, entries);
      }
    }
    AllReadBackIff(r, out, msgs);
  }

  lemma AllReadBackIff(r: Reader, out: seq<Msg<Wire>>, msgs: Conv)
    requires |out| == |msgs|
    ensures ReadAll(r, out) == msgs <==> forall i :: 0 <= i < |msgs| ==> ReadMsg(r, out[i]) == msgs[i]
  {
    if ReadAll(r, out) == msgs {
      forall i | 0 <= i < |msgs| ensures ReadMsg(r, out[i]) == msgs[i] {
        assert ReadAll(r, out)[i] == msgs[i];
      }
    }
  }

  // ---------------------------------------------------------------- collision-free handles

  /** t is a large text of the conversation. */
  predicate LargeText(msgs: Conv, t: string) {
    exists i :: 0 <= i < |msgs| && Delivers(msgs, i, t)
  }

  /** Distinct large texts of the conversation have distinct handles. */
  ghost predicate CollisionFree(c: Codec, msgs: Conv) {
    forall t, u :: LargeText(msgs, t) && LargeText(msgs, u) && c.handle(t) == c.handle(u) ==> t == u
  }

  predicate StoreAgrees(c: Codec, msgs: Conv, entries: map<string, string>) {
    forall i, t :: 0 <= i < |msgs| && t in MsgTargets(msgs[i], {}) && c.handle(t) in entries ==>
      entries[c.handle(t)] == t
  }

  lemma {:induction false} TargetsAre(sites: seq<Site>, keep: set<string>, n: nat, t: string)
    requires n <= |sites|
    ensures t in Targets(sites, keep, n) <==>
            exists j :: 0 <= j < n && sites[j].text == t && !Exempt(sites[j].id, keep)
  {
    if n == 0 {
    } else {
      TargetsAre(sites, keep, n - 1, t);
    }
  }

  lemma SiteIsTarget(m: Msg<string>, keep: set<string>, s: Site)
    requires s in Sites(m) && !Exempt(s.id, keep)
    ensures s.text in MsgTargets(m, keep) && s.text in MsgTargets(m, {})
  {
    var j :| 0 <= j < |Sites(m)| && Sites(m)[j] == s;
    TargetsAre(Sites(m), keep, |Sites(m)|, s.text);
    TargetsAre(Sites(m), {}, |Sites(m)|, s.text);
  }

  lemma TargetsShrink(m: Msg<string>, keep: set<string>, t: string)
    requires t in MsgTargets(m, keep)
    ensures t in MsgTargets(m, {})
  {
    TargetsAre(Sites(m), keep, |Sites(m)|, t);
    TargetsAre(Sites(m), {}, |Sites(m)|, t);
  }

  /** A text recorded in message i gives its handle an owner. */
  lemma OwnerStarts(c: Codec, keep: set<string>, msgs: Conv, i: nat, t: string)
    requires i < |msgs| && t in MsgTargets(msgs[i], keep) && Recorded(c, DeliveredBy(c, msgs, i), t)
    ensures FirstRecordedBy(c, keep, msgs, i + 1, c.handle(t)).Some?
  {
    var texts := MsgTargets(msgs[i], keep);
    var k :| 0 <= k < |texts| && texts[k] == t;
    FirstRecordedIs(c, DeliveredBy(c, msgs, i), texts, |texts|, c.handle(t));
  }

  lemma OwnerStays(c: Codec, keep: set<string>, msgs: Conv, n: nat, h: string)
    requires n < |msgs| && FirstRecordedBy(c, keep, msgs, n, h).Some?
    ensures FirstRecordedBy(c, keep, msgs, n + 1, h).Some?
  {
  }

  lemma {:induction false} Lasts(holds: nat -> bool, m: nat, n: nat)
    requires m <= n && holds(m) && forall i: nat :: m <= i < n && holds(i) ==> holds(i + 1)
    ensures holds(n)
  {
    if m == n {
    } else {
      Lasts(holds, m, n - 1);
    }
  }

  lemma OwnerLasts(c: Codec, keep: set<string>, msgs: Conv, m: nat, n: nat, h: string)
    requires m <= n <= |msgs| && FirstRecordedBy(c, keep, msgs, m, h).Some?
    ensures FirstRecordedBy(c, keep, msgs, n, h).Some?
  {
    var owned := (i: nat) => i <= |msgs| && FirstRecordedBy(c, keep, msgs, i, h).Some?;
    forall i: nat | m <= i < n && owned(i) ensures owned(i + 1) {
      OwnerStays(c, keep, msgs, i, h);
    }
    Lasts(owned, m, n);
  }

  lemma {:induction false} OwnerFromMessage(c: Codec, keep: set<string>, msgs: Conv, n: nat, h: string)
    requires n <= |msgs| && FirstRecordedBy(c, keep, msgs, n, h).Some?
    ensures var u := FirstRecordedBy(c, keep, msgs, n, h).value;
      |u| >= MIN_CHARS && c.handle(u) == h && exists j :: 0 <= j < n && u in MsgTargets(msgs[j], {})
  {
    if FirstRecordedBy(c, keep, msgs, n - 1, h).Some? {
      OwnerFromMessage(c, keep, msgs, n - 1, h);
    } else {
      var texts := MsgTargets(msgs[n - 1], keep);
      FirstRecordedIs(c, DeliveredBy(c, msgs, n - 1), texts, |texts|, h);
      TargetsShrink(msgs[n - 1], keep, FirstRecordedBy(c, keep, msgs, n, h).value);
    }
  }

  /** A replaced text is recorded under its handle, unless another large text was before it. */
  lemma ReplacedIsRecorded(c: Codec, keep: set<string>, msgs: Conv, i: nat, s: Site)
    requires i < |msgs| && ReplacedSite(c, keep, msgs, i, s)
    ensures Delivers(msgs, i, s.text) && FirstRecordedBy(c, keep, msgs, |msgs|, c.handle(s.text)).Some?
  {
    SiteIsTarget(msgs[i], keep, s);
    ReferenceTarget(c, DeliveredBy(c, msgs, i), s.text);
    OwnerStarts(c, keep, msgs, i, s.text);
    OwnerLasts(c, keep, msgs, i + 1, |msgs|, c.handle(s.text));
  }

  lemma OwnerIsLarge(c: Codec, keep: set<string>, msgs: Conv, h: string)
    requires FirstRecordedBy(c, keep, msgs, |msgs|, h).Some?
    ensures var u := FirstRecordedBy(c, keep, msgs, |msgs|, h).value; c.handle(u) == h && LargeText(msgs, u)
  {
    OwnerFromMessage(c, keep, msgs, |msgs|, h);
    var u := FirstRecordedBy(c, keep, msgs, |msgs|, h).value;
    var j :| 0 <= j < |msgs| && u in MsgTargets(msgs[j], {});
    assert Delivers(msgs, j, u);
  }

  /** With collision-free handles every replaced text owns its handle. */
  lemma ReplacedOwns(c: Codec, keep: set<string>, msgs: Conv, fx: Effects, i: nat, s: Site)
    requires CollisionFree(c, msgs) && StoreAgrees(c, msgs, fx.entries)
    requires i < |msgs| && ReplacedSite(c, keep, msgs, i, s)
    ensures Owner(c, keep, msgs, fx.entries, c.handle(s.text)) == Some(s.text)
  {
    var h := c.handle(s.text);
    ReplacedIsRecorded(c, keep, msgs, i, s);
    OwnerIsLarge(c, keep, msgs, h);
    assert LargeText(msgs, s.text);
  }

  /** With collision-free handles the run is reversible: the store gives every original back. */
  lemma CollisionFreeDecodes(c: Codec, keep: set<string>, msgs: Conv, fx: Effects)
    requires CollisionFree(c, msgs) && StoreAgrees(c, msgs, fx.entries)
    ensures ReadAll(FromStore(AfterMsgs(c, keep, msgs, |msgs|, fx).entries), EncodeAll(c, keep, msgs)) == msgs
  {
    forall i, s | 0 <= i < |msgs| && ReplacedSite(c, keep, msgs, i, s)
      ensures Owner(c, keep, msgs, fx.entries, c.handle(s.text)) == Some(s.text)
    {
      ReplacedOwns(c, keep, msgs, fx, i, s);
    }
    StoreDecodesIff(c, keep, msgs, fx);
  }

  // ---------------------------------------------------------------- decoding from the conversation alone

  /** Read the first n messages in order, each against the blocks read before it. */
  function ReadUpTo(c: Codec, patch: (string, string) -> string, entries: map<string, string>,
                    out: seq<Msg<Wire>>, n: nat): (msgs: Conv)
    requires n <= |out|
    ensures |msgs| == n
  {
    if n == 0 then []
    else
      var before := ReadUpTo(c, patch, entries, out, n - 1);
      before + [ReadMsg(InContext(entries, DeliveredBy(c, before, n - 1), patch), out[n - 1])]
  }

  /** A diff applied to its base gives the new text. */
  ghost predicate Patches(c: Codec, patch: (string, string) -> string) {
    forall h, base, text :: patch(base, c.diff(h, base, text)) == text
  }

  /** Structural references carry no formatting; they are expanded from the store. */
  predicate ExpandsStructural(c: Codec, d: Delivered, entries: map<string, string>, text: string) {
    EncodeText(c, d, text).AstRef? ==> Lookup(entries, c.handle(text)) == text
  }

  lemma ExactTargetSeen(c: Codec, msgs: Conv, i: nat, text: string)
    requires i < |msgs| && CollisionFree(c, msgs) && Delivers(msgs, i, text)
    requires Has(DeliveredBy(c, msgs, i), c.handle(text))
    ensures SeenText(DeliveredBy(c, msgs, i), c.handle(text)) == text
  {
    var d := DeliveredBy(c, msgs, i);
    var e := d[Find(d, c.handle(text))];
    DeliveredByFrom(c, msgs, i, e);
    assert LargeText(msgs, e.1) && LargeText(msgs, text);
  }

  lemma BaseSeen(c: Codec, msgs: Conv, i: nat, e: (string, string))
    requires i < |msgs| && e in LastBases(DeliveredBy(c, msgs, i))
    ensures SeenText(DeliveredBy(c, msgs, i), e.0) == e.1
  {
    DeliveredByUnique(c, msgs, i);
    var d := DeliveredBy(c, msgs, i);
    assert e in d;
    assert d[Find(d, e.0)] == e;
  }

  lemma SiteReadsInContext(c: Codec, patch: (string, string) -> string, entries: map<string, string>,
                           msgs: Conv, i: nat, s: Site)
    requires i < |msgs| && s in Sites(msgs[i])
    requires CollisionFree(c, msgs) && Patches(c, patch)
    requires ExpandsStructural(c, DeliveredBy(c, msgs, i), entries, s.text)
    ensures var d := DeliveredBy(c, msgs, i); Read(InContext(entries, d, patch), EncodeText(c, d, s.text)) == s.text
  {
    var d := DeliveredBy(c, msgs, i);
    var w := EncodeText(c, d, s.text);
    ReferenceTarget(c, d, s.text);
    if w.ExactRef? {
      assert Delivers(msgs, i, s.text) by {
        SiteIsTarget(msgs[i], {}, s);
      }
      ExactTargetSeen(c, msgs, i, s.text);
    } else if w.DiffRef? {
      var e :| e in LastBases(d) && e.0 == w.baseHandle && w.diff == c.diff(w.baseHandle, e.1, s.text);
      BaseSeen(c, msgs, i, e);
    }
  }

  lemma MsgReadsInContext(c: Codec, keep: set<string>, patch: (string, string) -> string,
                          entries: map<string, string>, msgs: Conv, i: nat)
    requires i < |msgs| && CollisionFree(c, msgs) && Patches(c, patch)
    requires forall s :: s in Sites(msgs[i]) && !Exempt(s.id, keep) ==>
      ExpandsStructural(c, DeliveredBy(c, msgs, i), entries, s.text)
    ensures ReadMsg(InContext(entries, DeliveredBy(c, msgs, i), patch), EncodeAll(c, keep, msgs)[i]) == msgs[i]
  {
    var d := DeliveredBy(c, msgs, i);
    var r := InContext(entries, d, patch);
    forall s | s in Sites(msgs[i]) ensures ReadsBack(r, c, d, keep, s) {
      if !Exempt(s.id, keep) {
        SiteReadsInContext(c, patch, entries, msgs, i, s);
      }
    }
    MsgReadsBackIff(r, c, d, keep, msgs[i]);
    EncodedAt(c, keep, msgs, |msgs|, i);
  }

  lemma ReadUpToStep(c: Codec, patch: (string, string) -> string, entries: map<string, string>,
                     out: seq<Msg<Wire>>, msgs: Conv, n: nat)
    requires n < |out| == |msgs| && ReadUpTo(c, patch, entries, out, n) == msgs[..n]
    requires ReadMsg(InContext(entries, DeliveredBy(c, msgs, n), patch), out[n]) == msgs[n]
    ensures ReadUpTo(c, patch, entries, out, n + 1) == msgs[..n + 1]
  {
    var before := msgs[..n];
    assert DeliveredBy(c, before, n) == DeliveredBy(c, msgs, n) by {
      DeliveredByPrefix(c, before, msgs, n);
    }
    var next := ReadMsg(InContext(entries, DeliveredBy(c, before, n), patch), out[n]);
    assert ReadUpTo(c, patch, entries, out, n + 1) == before + [next];
    assert msgs[..n + 1] == before + [msgs[n]];
  }

  /** Message i reads back against the blocks delivered before it. */
  ghost predicate ReadsAt(c: Codec, patch: (string, string) -> string, entries: map<string, string>,
                          out: seq<Msg<Wire>>, msgs: Conv, i: nat)
    requires i < |out| == |msgs|
  {
    ReadMsg(InContext(entries, DeliveredBy(c, msgs, i), patch), out[i]) == msgs[i]
  }

  lemma {:induction false} ReadUpToIs(c: Codec, patch: (string, string) -> string, entries: map<string, string>,
                                      out: seq<Msg<Wire>>, msgs: Conv, n: nat)
    requires n <= |out| == |msgs| && forall i :: 0 <= i < n ==> ReadsAt(c, patch, entries, out, msgs, i)
    ensures ReadUpTo(c, patch, entries, out, n) == msgs[..n]
  {
    if n == 0 {
    } else {
      ReadUpToIs(c, patch, entries, out, msgs, n - 1);
      assert ReadsAt(c, patch, entries, out, msgs, n - 1);
      ReadUpToStep(c, patch, entries, out, msgs, n - 1);
    }
  }

  /** The structural references that a run sends expand from the store it leaves. */
  lemma RunExpandsStructural(c: Codec, keep: set<string>, msgs: Conv, fx: Effects, i: nat, s: Site)
    requires CollisionFree(c, msgs) && StoreAgrees(c, msgs, fx.entries)
    requires i < |msgs| && s in Sites(msgs[i]) && !Exempt(s.id, keep)
    ensures ExpandsStructural(c, DeliveredBy(c, msgs, i), AfterMsgs(c, keep, msgs, |msgs|, fx).entries, s.text)
  {
    if EncodeText(c, DeliveredBy(c, msgs, i), s.text).AstRef? {
      ReplacedOwns(c, keep, msgs, fx, i, s);
      EntriesAfterMsgs(c, keep, msgs, |msgs|, fx, c.handle(s.text));
    }
  }

  /** The earlier messages carry the information a reference leaves out: reading the sent messages in
      order, with exact references and diffs resolved from what has been read so far and structural
      ones from the store the run leaves, gives back the original conversation, whatever is exempt. */
  lemma ConversationDecodesItself(c: Codec, keep: set<string>, patch: (string, string) -> string, msgs: Conv,
                                  fx: Effects, n: nat)
    requires n <= |msgs| && CollisionFree(c, msgs) && Patches(c, patch) && StoreAgrees(c, msgs, fx.entries)
    ensures var entries := AfterMsgs(c, keep, msgs, |msgs|, fx).entries;
      ReadUpTo(c, patch, entries, EncodeAll(c, keep, msgs), n) == msgs[..n]
  {
    var out, entries := EncodeAll(c, keep, msgs), AfterMsgs(c, keep, msgs, |msgs|, fx).entries;
    forall i | 0 <= i < n ensures ReadsAt(c, patch, entries, out, msgs, i) {
      forall s | s in Sites(msgs[i]) && !Exempt(s.id, keep)
        ensures ExpandsStructural(c, DeliveredBy(c, msgs, i), entries, s.text)
      {
        RunExpandsStructural(c, keep, msgs, fx, i, s);
      }
      MsgReadsInContext(c, keep, patch, entries, msgs, i);
    }
    ReadUpToIs(c, patch, entries, out, msgs, n);
  }

  // ---------------------------------------------------------------- when handles collide

  function Repeat(ch: char): string {
    seq(MIN_CHARS, _ => ch)
  }

  function ToolText(text: string): Msg<string> {
    TextMsg(ToolRole, None, text, "")
  }

  /** Three large texts with one handle, the last two different, and references to them short enough
      to be sent. */
  predicate Colliding(c: Codec, t1: string, t2: string, t3: string) {
    && |t1| >= MIN_CHARS && |t2| >= MIN_CHARS && |t3| >= MIN_CHARS && t2 != t3
    && c.handle(t1) == c.handle(t2) == c.handle(t3)
    && |c.marker(ExactRef(c.handle(t2), Lines(t2)))| < |t2| && |c.marker(ExactRef(c.handle(t3), Lines(t3)))| < |t3|
  }

  /** A codec whose handles all collide and whose markers are empty. */
  function CollidingCodec(): Codec {
    Codec(_ => "00000000", _ => None, (_, _) => 0.0, (_, _) => 0.0, (_, _, _) => "", _ => "", t => |t|)
  }

  function ThreeTexts(t1: string, t2: string, t3: string): Conv {
    [ToolText(t1), ToolText(t2), ToolText(t3)]
  }

  /** Every message after the first finds the one handle delivered. */
  lemma DeliveredThree(c: Codec, t1: string, t2: string, t3: string)
    requires Colliding(c, t1, t2, t3)
    ensures var msgs := ThreeTexts(t1, t2, t3);
      Has(DeliveredBy(c, msgs, 1), c.handle(t1)) && Has(DeliveredBy(c, msgs, 2), c.handle(t1))
  {
    var msgs := ThreeTexts(t1, t2, t3);
    OneTarget(t1);
    assert Delivers(msgs, 0, t1);
    DeliveredByHas(c, msgs, 1, 0, t1);
    DeliveredByHas(c, msgs, 2, 0, t1);
  }

  /** The store refuses a second text under a handle, but the walk ignores the refusal and sends the
      reference anyway.  So of three colliding blocks the second and the third both go out as the one
      handle, which can stand for one of them only: nothing the store held before helps. */
  lemma CollisionBreaksDecoding(c: Codec, t1: string, t2: string, t3: string, fx: Effects)
    requires Colliding(c, t1, t2, t3)
    ensures var msgs := ThreeTexts(t1, t2, t3);
      ReadAll(FromStore(AfterMsgs(c, {}, msgs, 3, fx).entries), EncodeAll(c, {}, msgs)) != msgs
  {
    var msgs := ThreeTexts(t1, t2, t3);
    DeliveredThree(c, t1, t2, t3);
    var s2, s3 := Site(t2, None), Site(t3, None);
    assert Sites(msgs[1]) == [s2] && Sites(msgs[2]) == [s3];
    assert ReplacedSite(c, {}, msgs, 1, s2) && ReplacedSite(c, {}, msgs, 2, s3);
    StoreDecodesIff(c, {}, msgs, fx);
  }

  /** For instance with three texts of 400 letters. */
  lemma CollidingRun(fx: Effects)
    ensures var c, msgs := CollidingCodec(), ThreeTexts(Repeat('a'), Repeat('b'), Repeat('c'));
      ReadAll(FromStore(AfterMsgs(c, {}, msgs, 3, fx).entries), EncodeAll(c, {}, msgs)) != msgs
  {
    assert Repeat('b')[0] == 'b' && Repeat('c')[0] == 'c';
    CollisionBreaksDecoding(CollidingCodec(), Repeat('a'), Repeat('b'), Repeat('c'), fx);
  }

  lemma OneTarget(text: string)
    ensures MsgTargets(ToolText(text), {}) == [text]
  {
    assert Targets([Site(text, None)], {}, 0) == [];
    assert Sites(ToolText(text)) == [Site(text, None)];
  }
}
