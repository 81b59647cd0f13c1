/**
  The cache-delta walk over a conversation (distil/cachedelta.py): a tool or user text that repeats
  or nearly repeats earlier content is replaced by a reference, and the original is put in a
  restore store.
*/
module CacheDelta {
  import opened Wrappers
  import opened Conversation
  import AstDelta

  const MIN_CHARS := 400
  const NEAR_DUP_RATIO := 0.5
  const MAX_BASES := 12

  /** What a text is sent as. */
  datatype Wire =
    | Verbatim(text: string)
    | ExactRef(handle: string, lines: nat)
    | DiffRef(baseHandle: string, handle: string, diff: string, lines: nat)
    | AstRef(baseHandle: string, handle: string, delta: AstDelta.Delta)

  /** The library functions the walk is built from: the content hash, the module parser, the two
      similarity measures (of a base and a text), the unified diff (of a base handle, a base and a
      text), the wording of the markers and the tokenizer. */
  datatype Codec = Codec(
    handle: string -> string,
    segments: string -> Option<seq<AstDelta.Seg>>,
    quickRatio: (string, string) -> real,
    ratio: (string, string) -> real,
    diff: (string, string, string) -> string,
    marker: Wire -> string,
    count: string -> nat)

  datatype CacheStats = CacheStats(prefixMsgs: nat, exactRefs: nat, deltaRefs: nat, tokensSaved: nat)

  function Render(c: Codec, w: Wire): string {
    if w.Verbatim? then w.text else c.marker(w)
  }

  function Newlines(text: string, n: nat): nat
    requires n <= |text|
  {
    if n == 0 then 0 else Newlines(text, n - 1) + if text[n - 1] == '\n' then 1 else 0
  }

  function Lines(text: string): nat {
    Newlines(text, |text|) + 1
  }

  // ---------------------------------------------------------------- the delivered blocks

  /** Handle and text of the delivered blocks, in order of first insertion of the handle. */
  type Delivered = seq<(string, string)>

  function Find(d: Delivered, h: string): (i: nat)
    ensures i <= |d|
    ensures i < |d| ==> d[i].0 == h
    ensures forall j :: 0 <= j < i ==> d[j].0 != h
  {
    if d == [] || d[0].0 == h then 0 else 1 + Find(d[1..], h)
  }

  predicate Has(d: Delivered, h: string) {
    Find(d, h) < |d|
  }

  /** Assigning to an existing handle keeps its position. */
  function Put(d: Delivered, h: string, text: string): Delivered {
    if Has(d, h) then d[Find(d, h) := (h, text)] else d + [(h, text)]
  }

  function LastBases(d: Delivered): Delivered {
    if |d| <= MAX_BASES then d else d[|d| - MAX_BASES..]
  }

  function Deliver(c: Codec, d: Delivered, texts: seq<string>, n: nat): Delivered
    requires n <= |texts|
  {
    if n == 0 then d
    else
      var t, before := texts[n - 1], Deliver(c, d, texts, n - 1);
      if |t| >= MIN_CHARS then Put(before, c.handle(t), t) else before
  }

  // ---------------------------------------------------------------- the most similar base

  /** A base survives the length filter, the quick filter and the similarity threshold. */
  predicate Qualifies(c: Codec, text: string, base: string) {
    && base != ""
    && 2 * (if |text| < |base| then |text| else |base|) >= (if |text| < |base| then |base| else |text|)
    && c.quickRatio(base, text) >= NEAR_DUP_RATIO
    && c.ratio(base, text) >= NEAR_DUP_RATIO
  }

  function BestBase(c: Codec, text: string, bases: Delivered, n: nat): (r: Option<nat>)
    requires n <= |bases|
    ensures r.Some? ==> r.value < n && Qualifies(c, text, bases[r.value].1)
  {
    if n == 0 then None
    else
      var best, base := BestBase(c, text, bases, n - 1), bases[n - 1].1;
      if Qualifies(c, text, base) && (best.None? || c.ratio(base, text) > c.ratio(bases[best.value].1, text))
      then Some(n - 1)
      else best
  }

  /** The search returns the first qualifying base of maximal similarity, and nothing exactly when
      no base qualifies. */
  lemma {:induction false} BestBaseIsFirstMaximum(c: Codec, text: string, bases: Delivered, n: nat)
    requires n <= |bases|
    ensures var r := BestBase(c, text, bases, n);
      && (r.None? <==> forall i :: 0 <= i < n ==> !Qualifies(c, text, bases[i].1))
      && (r.Some? ==>
            forall i :: 0 <= i < n && Qualifies(c, text, bases[i].1) ==>
              if i < r.value then c.ratio(bases[i].1, text) < c.ratio(bases[r.value].1, text)
              else c.ratio(bases[i].1, text) <= c.ratio(bases[r.value].1, text))
  {
    if n == 0 {
    } else {
      BestBaseIsFirstMaximum(c, text, bases, n - 1);
    }
  }

  method FindBestBase(c: Codec, text: string, bases: Delivered) returns (best: Option<nat>)
    ensures best == BestBase(c, text, bases, |bases|)
  {
    best := None;
    for i := 0 to |bases|
      invariant best == BestBase(c, text, bases, i)
    {
      var base := bases[i].1;
      if base == "" {
        continue;
      }
      var shorter, longer := |text|, |base|;
      if longer < shorter {
        shorter, longer := longer, shorter;
      }
      if 2 * shorter < longer {
        continue;
      }
      if c.quickRatio(base, text) < NEAR_DUP_RATIO {
        continue;
      }
      var ratio := c.ratio(base, text);
      if ratio >= NEAR_DUP_RATIO && (best.None? || ratio > c.ratio(bases[best.value].1, text)) {
        best := Some(i);
      }
    }
  }

  // ---------------------------------------------------------------- one block

  function AstLength(c: Codec, baseHandle: string, handle: string): AstDelta.Delta -> nat {
    (delta: AstDelta.Delta) => |c.marker(AstRef(baseHandle, handle, delta))|
  }

  function NearDuplicate(c: Codec, base: (string, string), text: string): Wire {
    var (bh, bt) := base;
    var h := c.handle(text);
    match AstDelta.Structural(c.segments(bt), c.segments(text), AstLength(c, bh, h), |text|)
    case Some(delta) => AstRef(bh, h, delta)
    case None =>
      var w := DiffRef(bh, h, c.diff(bh, bt, text), Lines(text));
      if |c.marker(w)| < |text| then w else Verbatim(text)
  }

  /** What a text is sent as after the blocks in d have been delivered. */
  function EncodeText(c: Codec, d: Delivered, text: string): Wire {
    if |text| < MIN_CHARS then Verbatim(text)
    else if Has(d, c.handle(text)) then
      var w := ExactRef(c.handle(text), Lines(text));
      if |c.marker(w)| < |text| then w else Verbatim(text)
    else
      match BestBase(c, text, LastBases(d), |LastBases(d)|)
      case None => Verbatim(text)
      case Some(i) => NearDuplicate(c, LastBases(d)[i], text)
  }

  /** The original is recorded even when the exact reference turns out not to be shorter. */
  predicate Recorded(c: Codec, d: Delivered, text: string) {
    |text| >= MIN_CHARS && (Has(d, c.handle(text)) || !EncodeText(c, d, text).Verbatim?)
  }

  /** A handle that already stands for a different text is left alone. */
  function RecordIn(entries: map<string, string>, h: string, text: string): map<string, string> {
    if h in entries && entries[h] != text then entries else entries[h := text]
  }

  function Saved(c: Codec, text: string, w: Wire): nat {
    var before, after := c.count(text), c.count(Render(c, w));
    if after < before then before - after else 0
  }

  function CountWire(c: Codec, stats: CacheStats, text: string, w: Wire): CacheStats {
    match w
    case Verbatim(_) => stats
    case ExactRef(_, _) =>
      stats.(exactRefs := stats.exactRefs + 1, tokensSaved := stats.tokensSaved + Saved(c, text, w))
    case _ =>
      stats.(deltaRefs := stats.deltaRefs + 1, tokensSaved := stats.tokensSaved + Saved(c, text, w))
  }

  /** The restore store (distil/adapters/anthropic.py), kept in memory. */
  class RestoreStore {
    var entries: map<string, string>

    constructor ()
      ensures entries == map[]
    {
      entries := map[];
    }

    method Record(h: string, text: string) returns (ok: bool)
      modifies this
      ensures ok <==> !(h in old(entries) && old(entries)[h] != text)
      ensures entries == RecordIn(old(entries), h, text)
    {
      if h in entries && entries[h] != text {
        return false;
      }
      entries := entries[h := text];
      ok := true;
    }
  }

  /** What encoding a text does besides producing its wire form. */
  datatype Effects = Effects(entries: map<string, string>, stats: CacheStats)

  function AfterText(c: Codec, d: Delivered, text: string, fx: Effects): Effects {
    Effects(if Recorded(c, d, text) then RecordIn(fx.entries, c.handle(text), text) else fx.entries,
            CountWire(c, fx.stats, text, EncodeText(c, d, text)))
  }

  method EncodeBlock(c: Codec, text: string, prior: Delivered, bases: Delivered, store: RestoreStore, stats: CacheStats)
    returns (w: Wire, stats': CacheStats)
    requires bases == LastBases(prior)
    modifies store
    ensures w == EncodeText(c, prior, text)
    ensures Effects(store.entries, stats') == AfterText(c, prior, text, Effects(old(store.entries), stats))
  {
    w, stats' := Verbatim(text), stats;
    if |text| < MIN_CHARS {
      return;
    }
    var h := c.handle(text);
    if Has(prior, h) {
      var _ := store.Record(h, text);
      var exact := ExactRef(h, Lines(text));
      if |c.marker(exact)| < |text| {
        w, stats' := exact, CountWire(c, stats, text, exact);
      }
      return;
    }
    var best := FindBestBase(c, text, bases);
    if best.Some? {
      var (bh, bt) := bases[best.value];
      var delta := AstDelta.StructuralDelta(c.segments(bt), c.segments(text), AstLength(c, bh, h), |text|);
      var candidate :=
        match delta
        case Some(x) => AstRef(bh, h, x)
        case None => DiffRef(bh, h, c.diff(bh, bt, text), Lines(text));
      if |c.marker(candidate)| < |text| {
        var _ := store.Record(h, text);
        w, stats' := candidate, CountWire(c, stats, text, candidate);
      }
    }
  }

  // ---------------------------------------------------------------- one message

  function CodePart(c: Codec, d: Delivered, exempt: bool, p: Part<string>): Part<Wire> {
    match p
    case TextPart(text, rest) => TextPart(if exempt then Verbatim(text) else EncodeText(c, d, text), rest)
    case OtherPart(rest) => OtherPart(rest)
  }

  function CodeParts(c: Codec, d: Delivered, exempt: bool, parts: seq<Part<string>>): seq<Part<Wire>> {
    seq(|parts|, i requires 0 <= i < |parts| => CodePart(c, d, exempt, parts[i]))
  }

  function CodeBlock(c: Codec, d: Delivered, keep: set<string>, b: Block<string>): Block<Wire> {
    match b
    case TextResult(id, text, rest) =>
      TextResult(id, if Exempt(id, keep) then Verbatim(text) else EncodeText(c, d, text), rest)
    case PartsResult(id, parts, rest) => PartsResult(id, CodeParts(c, d, Exempt(id, keep), parts), rest)
    case OtherBlock(rest) => OtherBlock(rest)
  }

  function CodeBlocks(c: Codec, d: Delivered, keep: set<string>, blocks: seq<Block<string>>): seq<Block<Wire>> {
    seq(|blocks|, i requires 0 <= i < |blocks| => CodeBlock(c, d, keep, blocks[i]))
  }

  /** A message as sent after the blocks in d; texts answering an id in keep are left alone. */
  function EncodeMsg(c: Codec, d: Delivered, keep: set<string>, m: Msg<string>): Msg<Wire> {
    match m
    case TextMsg(role, id, text, rest) =>
      TextMsg(role, id, if role == OtherRole || Exempt(id, keep) then Verbatim(text) else EncodeText(c, d, text), rest)
    case ToolListMsg(id, parts, rest) => ToolListMsg(id, CodeParts(c, d, Exempt(id, keep), parts), rest)
    case BlockListMsg(blocks, rest) => BlockListMsg(CodeBlocks(c, d, keep, blocks), rest)
    case OpaqueMsg(rest) => OpaqueMsg(rest)
  }

  /** The texts among the first n sites that the walk transforms. */
  function Targets(sites: seq<Site>, keep: set<string>, n: nat): seq<string>
    requires n <= |sites|
  {
    if n == 0 then []
    else
      var before := Targets(sites, keep, n - 1);
      if Exempt(sites[n - 1].id, keep) then before else before + [sites[n - 1].text]
  }

  function MsgTargets(m: Msg<string>, keep: set<string>): seq<string> {
    Targets(Sites(m), keep, |Sites(m)|)
  }

  function AfterTexts(c: Codec, d: Delivered, texts: seq<string>, n: nat, fx: Effects): Effects
    requires n <= |texts|
  {
    if n == 0 then fx else AfterText(c, d, texts[n - 1], AfterTexts(c, d, texts, n - 1, fx))
  }

  lemma {:induction false} TargetsOfSum(a: seq<Site>, b: seq<Site>, keep: set<string>, n: nat)
    requires n <= |b|
    ensures Targets(a + b, keep, |a| + n) == Targets(a, keep, |a|) + Targets(b, keep, n)
  {
    if n == 0 {
      TargetsOfPrefix(a, a + b, keep, |a|);
    } else {
      TargetsOfSum(a, b, keep, n - 1);
    }
  }

  lemma {:induction false} TargetsOfPrefix(a: seq<Site>, b: seq<Site>, keep: set<string>, n: nat)
    requires n <= |a| && a <= b
    ensures Targets(a, keep, n) == Targets(b, keep, n)
  {
    if n == 0 {
    } else {
      TargetsOfPrefix(a, b, keep, n - 1);
    }
  }

  lemma {:induction false} AfterPrefix(c: Codec, d: Delivered, a: seq<string>, b: seq<string>, n: nat, fx: Effects)
    requires n <= |a| && a <= b
    ensures AfterTexts(c, d, a, n, fx) == AfterTexts(c, d, b, n, fx)
  {
    if n == 0 {
    } else {
      AfterPrefix(c, d, a, b, n - 1, fx);
    }
  }

  lemma {:induction false} AfterSum(c: Codec, d: Delivered, a: seq<string>, b: seq<string>, n: nat, fx: Effects)
    requires n <= |b|
    ensures AfterTexts(c, d, a + b, |a| + n, fx) == AfterTexts(c, d, b, n, AfterTexts(c, d, a, |a|, fx))
  {
    if n == 0 {
      AfterPrefix(c, d, a, a + b, |a|, fx);
    } else {
      AfterSum(c, d, a, b, n - 1, fx);
    }
  }

  /** The effects of transforming the sites of a message, or of part of one. */
  function AfterSites(c: Codec, d: Delivered, keep: set<string>, sites: seq<Site>, fx: Effects): Effects {
    var texts := Targets(sites, keep, |sites|);
    AfterTexts(c, d, texts, |texts|, fx)
  }

  lemma AfterMoreSites(c: Codec, d: Delivered, keep: set<string>, a: seq<Site>, b: seq<Site>, fx: Effects)
    ensures AfterSites(c, d, keep, a + b, fx) == AfterSites(c, d, keep, b, AfterSites(c, d, keep, a, fx))
  {
    TargetsOfSum(a, b, keep, |b|);
    var ta, tb := Targets(a, keep, |a|), Targets(b, keep, |b|);
    AfterSum(c, d, ta, tb, |tb|, fx);
  }

  lemma AfterOneSite(c: Codec, d: Delivered, keep: set<string>, s: Site, fx: Effects)
    ensures AfterSites(c, d, keep, [s], fx) == if Exempt(s.id, keep) then fx else AfterText(c, d, s.text, fx)
  {
    assert Targets([s], keep, 0) == [];
    if !Exempt(s.id, keep) {
      assert Targets([s], keep, 1) == [s.text];
      assert AfterTexts(c, d, [s.text], 0, fx) == fx;
    }
  }

  lemma {:induction false} AfterExemptParts(c: Codec, d: Delivered, keep: set<string>, parts: seq<Part<string>>,
                         id: Option<string>, n: nat, fx: Effects)
    requires n <= |parts| && Exempt(id, keep)
    ensures AfterSites(c, d, keep, PartSites(parts, id, n), fx) == fx
  {
    if n == 0 {
    } else {
      AfterExemptParts(c, d, keep, parts, id, n - 1, fx);
      if parts[n - 1].TextPart? {
        AfterMoreSites(c, d, keep, PartSites(parts, id, n - 1), [Site(parts[n - 1].text, id)], fx);
        AfterOneSite(c, d, keep, Site(parts[n - 1].text, id), fx);
      }
    }
  }

  method RewriteParts(c: Codec, prior: Delivered, bases: Delivered, parts: seq<Part<string>>,
                      id: Option<string>, keep: set<string>, store: RestoreStore, stats: CacheStats)
    returns (out: seq<Part<Wire>>, stats': CacheStats)
    requires bases == LastBases(prior)
    modifies store
    ensures out == CodeParts(c, prior, Exempt(id, keep), parts)
    ensures Effects(store.entries, stats') ==
      AfterSites(c, prior, keep, PartSites(parts, id, |parts|), Effects(old(store.entries), stats))
  {
    ghost var fx := Effects(store.entries, stats);
    out, stats' := [], stats;
    if Exempt(id, keep) {
      AfterExemptParts(c, prior, keep, parts, id, |parts|, fx);
      return CodeParts(c, prior, true, parts), stats;
    }
    for i := 0 to |parts|
      invariant out == CodeParts(c, prior, false, parts)[..i]
      invariant Effects(store.entries, stats') == AfterSites(c, prior, keep, PartSites(parts, id, i), fx)
    {
      match parts[i] {
        case TextPart(text, rest) =>
          AfterMoreSites(c, prior, keep, PartSites(parts, id, i), [Site(text, id)], fx);
          AfterOneSite(c, prior, keep, Site(text, id), Effects(store.entries, stats'));
          var w;
          w, stats' := EncodeBlock(c, text, prior, bases, store, stats');
          out := out + [TextPart(w, rest)];
        case OtherPart(rest) =>
          out := out + [OtherPart(rest)];
      }
    }
  }

  method RewriteBlocks(c: Codec, prior: Delivered, bases: Delivered, blocks: seq<Block<string>>,
                       keep: set<string>, store: RestoreStore, stats: CacheStats)
    returns (out: seq<Block<Wire>>, stats': CacheStats)
    requires bases == LastBases(prior)
    modifies store
    ensures out == CodeBlocks(c, prior, keep, blocks)
    ensures Effects(store.entries, stats') ==
      AfterSites(c, prior, keep, BlockSites(blocks, |blocks|), Effects(old(store.entries), stats))
  {
    ghost var fx := Effects(store.entries, stats);
    out, stats' := [], stats;
    for i := 0 to |blocks|
      invariant out == CodeBlocks(c, prior, keep, blocks)[..i]
      invariant Effects(store.entries, stats') == AfterSites(c, prior, keep, BlockSites(blocks, i), fx)
    {
      match blocks[i] {
        case TextResult(id, text, rest) =>
          AfterMoreSites(c, prior, keep, BlockSites(blocks, i), [Site(text, id)], fx);
          AfterOneSite(c, prior, keep, Site(text, id), Effects(store.entries, stats'));
          var w := Verbatim(text);
          if !Exempt(id, keep) {
            w, stats' := EncodeBlock(c, text, prior, bases, store, stats');
          }
          out := out + [TextResult(id, w, rest)];
        case PartsResult(id, parts, rest) =>
          AfterMoreSites(c, prior, keep, BlockSites(blocks, i), PartSites(parts, id, |parts|), fx);
          var coded;
          coded, stats' := RewriteParts(c, prior, bases, parts, id, keep, store, stats');
          out := out + [PartsResult(id, coded, rest)];
        case OtherBlock(rest) =>
          out := out + [OtherBlock(rest)];
      }
    }
  }

  method RewriteMsg(c: Codec, prior: Delivered, bases: Delivered, m: Msg<string>, keep: set<string>,
                    store: RestoreStore, stats: CacheStats)
    returns (out: Msg<Wire>, stats': CacheStats)
    requires bases == LastBases(prior)
    modifies store
    ensures out == EncodeMsg(c, prior, keep, m)
    ensures Effects(store.entries, stats') ==
      AfterSites(c, prior, keep, Sites(m), Effects(old(store.entries), stats))
  {
    stats' := stats;
    match m {
      case TextMsg(role, id, text, rest) =>
        AfterOneSite(c, prior, keep, Site(text, id), Effects(store.entries, stats));
        var w := Verbatim(text);
        if role != OtherRole && !Exempt(id, keep) {
          w, stats' := EncodeBlock(c, text, prior, bases, store, stats);
        }
        out := TextMsg(role, id, w, rest);
      case ToolListMsg(id, parts, rest) =>
        var coded;
        coded, stats' := RewriteParts(c, prior, bases, parts, id, keep, store, stats);
        out := ToolListMsg(id, coded, rest);
      case BlockListMsg(blocks, rest) =>
        var coded;
        coded, stats' := RewriteBlocks(c, prior, bases, blocks, keep, store, stats);
        out := BlockListMsg(coded, rest);
      case OpaqueMsg(rest) =>
        out := OpaqueMsg(rest);
    }
  }

  // ---------------------------------------------------------------- the whole conversation

  /** The blocks delivered by the first n messages; keep plays no part. */
  function DeliveredBy(c: Codec, msgs: Conv, n: nat): Delivered
    requires n <= |msgs|
  {
    if n == 0 then []
    else
      var texts := MsgTargets(msgs[n - 1], {});
      Deliver(c, DeliveredBy(c, msgs, n - 1), texts, |texts|)
  }

  function EncodeUpTo(c: Codec, keep: set<string>, msgs: Conv, n: nat): (out: seq<Msg<Wire>>)
    requires n <= |msgs|
    ensures |out| == n
  {
    if n == 0 then []
    else EncodeUpTo(c, keep, msgs, n - 1) + [EncodeMsg(c, DeliveredBy(c, msgs, n - 1), keep, msgs[n - 1])]
  }

  /** The conversation as sent. */
  function EncodeAll(c: Codec, keep: set<string>, msgs: Conv): (out: seq<Msg<Wire>>)
    ensures |out| == |msgs|
  {
    EncodeUpTo(c, keep, msgs, |msgs|)
  }

  function AfterMsgs(c: Codec, keep: set<string>, msgs: Conv, n: nat, fx: Effects): Effects
    requires n <= |msgs|
  {
    if n == 0 then fx
    else AfterSites(c, DeliveredBy(c, msgs, n - 1), keep, Sites(msgs[n - 1]), AfterMsgs(c, keep, msgs, n - 1, fx))
  }

  /** Length of the longest common prefix. */
  function CommonPrefix<T(==)>(a: seq<T>, b: seq<T>): (n: nat)
    ensures n <= |a| && n <= |b| && a[..n] == b[..n]
    ensures n < |a| && n < |b| ==> a[n] != b[n]
  {
    if a == [] || b == [] || a[0] != b[0] then 0 else 1 + CommonPrefix(a[1..], b[1..])
  }

  lemma {:induction false} CommonPrefixIs<T>(a: seq<T>, b: seq<T>, n: nat)
    requires n <= |a| && n <= |b| && a[..n] == b[..n]
    requires n < |a| && n < |b| ==> a[n] != b[n]
    ensures n == CommonPrefix(a, b)
  {
    if n == 0 {
    } else {
      assert a[0] == a[..n][0] == b[..n][0] == b[0];
      assert a[1..][..n - 1] == a[..n][1..] == b[..n][1..] == b[1..][..n - 1];
      CommonPrefixIs(a[1..], b[1..], n - 1);
    }
  }

  function Hashes(hash: Msg<string> -> string, msgs: Conv): seq<string> {
    seq(|msgs|, i requires 0 <= i < |msgs| => hash(msgs[i]))
  }

  /** Memory of the previous call's message hashes. */
  class DeltaSession {
    var prevMsgHashes: seq<string>

    constructor ()
      ensures prevMsgHashes == []
    {
      prevMsgHashes := [];
    }
  }

  const NO_STATS := CacheStats(0, 0, 0, 0)

  method CountCommonPrefix(a: seq<string>, b: seq<string>) returns (lcp: nat)
    ensures lcp == CommonPrefix(a, b)
  {
    lcp := 0;
    while lcp < |a| && lcp < |b| && a[lcp] == b[lcp]
      invariant lcp <= |a| && lcp <= |b| && a[..lcp] == b[..lcp]
    {
      lcp := lcp + 1;
    }
    CommonPrefixIs(a, b, lcp);
  }

  /** Compare with the session's previous call and remember this one. */
  method NotePrefix(session: DeltaSession, hashes: seq<string>) returns (lcp: nat)
    modifies session
    ensures lcp == CommonPrefix(hashes, old(session.prevMsgHashes))
    ensures session.prevMsgHashes == hashes
  {
    lcp := CountCommonPrefix(hashes, session.prevMsgHashes);
    session.prevMsgHashes := hashes;
  }

  method Register(c: Codec, before: Delivered, texts: seq<string>) returns (delivered: Delivered)
    ensures delivered == Deliver(c, before, texts, |texts|)
  {
    delivered := before;
    for k := 0 to |texts|
      invariant delivered == Deliver(c, before, texts, k)
    {
      if |texts[k]| >= MIN_CHARS {
        delivered := Put(delivered, c.handle(texts[k]), texts[k]);
      }
    }
  }

  /** A message's blocks are registered after it is encoded, so none can match itself. */
  method EncodeNext(c: Codec, msgs: Conv, i: nat, delivered: Delivered, store: RestoreStore, keep: set<string>,
                    stats: CacheStats, ghost fx: Effects)
    returns (coded: Msg<Wire>, delivered': Delivered, stats': CacheStats)
    requires i < |msgs| && delivered == DeliveredBy(c, msgs, i)
    requires Effects(store.entries, stats) == AfterMsgs(c, keep, msgs, i, fx)
    modifies store
    ensures coded == EncodeMsg(c, delivered, keep, msgs[i])
    ensures delivered' == DeliveredBy(c, msgs, i + 1)
    ensures Effects(store.entries, stats') == AfterMsgs(c, keep, msgs, i + 1, fx)
  {
    coded, stats' := RewriteMsg(c, delivered, LastBases(delivered), msgs[i], keep, store, stats);
    delivered' := Register(c, delivered, MsgTargets(msgs[i], {}));
  }

  method Walk(c: Codec, msgs: Conv, store: RestoreStore, keep: set<string>, start: CacheStats)
    returns (out: seq<Msg<Wire>>, stats: CacheStats)
    modifies store
    ensures out == EncodeAll(c, keep, msgs)
    ensures Effects(store.entries, stats) == AfterMsgs(c, keep, msgs, |msgs|, Effects(old(store.entries), start))
  {
    ghost var fx := Effects(store.entries, start);
    out, stats := [], start;
    var delivered: Delivered := [];
    for i := 0 to |msgs|
      invariant out == EncodeUpTo(c, keep, msgs, i)
      invariant delivered == DeliveredBy(c, msgs, i)
      invariant Effects(store.entries, stats) == AfterMsgs(c, keep, msgs, i, fx)
    {
      var coded;
      coded, delivered, stats := EncodeNext(c, msgs, i, delivered, store, keep, stats, fx);
      out := out + [coded];
    }
  }

  method DeltaEncode(c: Codec, hash: Msg<string> -> string, msgs: Conv, session: DeltaSession?, store: RestoreStore,
                     keep: set<string>)
    returns (out: seq<Msg<Wire>>, stats: CacheStats)
    modifies store, session
    ensures out == EncodeAll(c, keep, msgs)
    ensures session != null ==> session.prevMsgHashes == Hashes(hash, msgs)
    ensures var prefix := if session == null then 0 else CommonPrefix(Hashes(hash, msgs), old(session.prevMsgHashes));
      Effects(store.entries, stats) ==
      AfterMsgs(c, keep, msgs, |msgs|, Effects(old(store.entries), NO_STATS.(prefixMsgs := prefix)))
  {
    stats := NO_STATS;
    if session != null {
      var lcp := NotePrefix(session, Hashes(hash, msgs));
      stats := stats.(prefixMsgs := lcp);
    }
    out, stats := Walk(c, msgs, store, keep, stats);
  }
}
