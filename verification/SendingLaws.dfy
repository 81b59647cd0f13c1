/**
  When a text is sent as a reference, and as which (distil/cachedelta.py, `_encode_block`,
  `_best_base` and the walk of `delta_encode`), in terms of the conversation alone: the texts that
  earlier messages contain, their handles, and the measures and markers the codec is given.
*/
module SendingLaws {
  import opened Wrappers
  import opened Conversation
  import opened CacheDelta
  import opened CacheDeltaLaws
  import opened Counting
  import AstDelta

  // ---------------------------------------------------------------- the texts delivered so far

  /** The given texts and those of at least 400 characters among the first n sites. */
  function AndLarge(texts: seq<string>, sites: seq<Site>, n: nat): seq<string>
    requires n <= |sites|
  {
    if n == 0 then texts
    else if |sites[n - 1].text| >= 400 then AndLarge(texts, sites, n - 1) + [sites[n - 1].text]
    else AndLarge(texts, sites, n - 1)
  }

  /** The texts of at least 400 characters in the first n messages, in order. */
  function Large(msgs: Conv, n: nat): seq<string>
    requires n <= |msgs|
  {
    if n == 0 then [] else AndLarge(Large(msgs, n - 1), Sites(msgs[n - 1]), |Sites(msgs[n - 1])|)
  }

  /** No earlier text has the handle of text q. */
  predicate FirstUse(c: Codec, texts: seq<string>, q: nat)
    requires q < |texts|
  {
    forall p :: 0 <= p < q ==> c.handle(texts[p]) != c.handle(texts[q])
  }

  /** Text q is the last of the first n under handle h. */
  predicate LastUse(c: Codec, texts: seq<string>, n: nat, h: string, q: nat) {
    q < n <= |texts| && c.handle(texts[q]) == h && forall r :: q < r < n ==> c.handle(texts[r]) != h
  }

  /** The first uses of a handle from text p up to text n. */
  function UsesSince(c: Codec, texts: seq<string>, p: nat, n: nat): set<nat>
    requires n <= |texts|
  {
    Positions((q: nat) => q < |texts| && FirstUse(c, texts, q), p, n)
  }

  // ---------------------------------------------------------------- what is sent

  predicate Similar(c: Codec, text: string, base: string) {
    && |base| > 0 && 2 * |text| >= |base| && 2 * |base| >= |text|
    && c.quickRatio(base, text) >= 0.5 && c.ratio(base, text) >= 0.5
  }

  /** The handle first used by text p is among the twelve most recently introduced; text q is what it
      stands for, and is similar to the new text. */
  predicate IsBase(c: Codec, texts: seq<string>, text: string, p: nat, q: nat) {
    && p < |texts| && FirstUse(c, texts, p) && |UsesSince(c, texts, p, |texts|)| <= 12
    && LastUse(c, texts, |texts|, c.handle(texts[p]), q)
    && Similar(c, text, texts[q])
  }

  /** Of all bases the most similar one; the first introduced on a tie. */
  ghost predicate IsBestBase(c: Codec, texts: seq<string>, text: string, p: nat, q: nat) {
    && IsBase(c, texts, text, p, q)
    && forall r: nat, s: nat :: IsBase(c, texts, text, r, s) ==>
         || c.ratio(texts[s], text) < c.ratio(texts[q], text)
         || (c.ratio(texts[s], text) == c.ratio(texts[q], text) && p <= r)
  }

  function LineCount(text: string): nat {
    |set k | 0 <= k < |text| && text[k] == '\n'| + 1
  }

  function Exact(c: Codec, text: string): Wire {
    ExactRef(c.handle(text), LineCount(text))
  }

  function Diff(c: Codec, handle: string, base: string, text: string): Wire {
    DiffRef(handle, c.handle(text), c.diff(handle, base, text), LineCount(text))
  }

  predicate Shortens(c: Codec, w: Wire, text: string) {
    |c.marker(w)| < |text|
  }

  /** Both texts are parsed modules, and the marker of their structural delta is the shorter text. */
  predicate ShortStructure(c: Codec, handle: string, base: string, text: string) {
    && c.segments(base).Some? && c.segments(text).Some?
    && Shortens(c, AstRef(handle, c.handle(text), AstDelta.Compared(c.segments(base).value, c.segments(text).value)),
                text)
  }

  /** What a text is sent as against one base: the structural delta if its marker is shorter than the
      text, else the textual one if that is, else the text itself. */
  predicate IsDelta(c: Codec, handle: string, base: string, text: string, w: Wire) {
    if ShortStructure(c, handle, base, text) then
      w == AstRef(handle, c.handle(text), AstDelta.Compared(c.segments(base).value, c.segments(text).value))
    else if Shortens(c, Diff(c, handle, base, text), text) then w == Diff(c, handle, base, text)
    else w == Verbatim(text)
  }

  /** What a text is sent as after the given large texts. */
  ghost predicate SentAs(c: Codec, texts: seq<string>, text: string, w: Wire) {
    if |text| < 400 then w == Verbatim(text)
    else if exists p :: 0 <= p < |texts| && c.handle(texts[p]) == c.handle(text) then
      w == if Shortens(c, Exact(c, text), text) then Exact(c, text) else Verbatim(text)
    else if exists p: nat, q: nat :: IsBase(c, texts, text, p, q) then
      exists p: nat, q: nat :: IsBestBase(c, texts, text, p, q) && IsDelta(c, c.handle(texts[p]), texts[q], text, w)
    else w == Verbatim(text)
  }

  // ---------------------------------------------------------------- the dictionary of delivered blocks

  /** The first n texts put into the dictionary one after the other. */
  function Dict(c: Codec, texts: seq<string>, n: nat): Delivered
    requires n <= |texts|
  {
    if n == 0 then [] else Put(Dict(c, texts, n - 1), c.handle(texts[n - 1]), texts[n - 1])
  }

  lemma {:induction false} DictOfPrefix(c: Codec, a: seq<string>, b: seq<string>, n: nat)
    requires n <= |a| && a <= b
    ensures Dict(c, a, n) == Dict(c, b, n)
  {
    if n == 0 {
    } else {
      DictOfPrefix(c, a, b, n - 1);
    }
  }

  lemma DictOneMore(c: Codec, texts: seq<string>, t: string)
    ensures Dict(c, texts + [t], |texts| + 1) == Put(Dict(c, texts, |texts|), c.handle(t), t)
  {
    DictOfPrefix(c, texts, texts + [t], |texts|);
  }

  lemma {:induction false} DeliverOfPrefix(c: Codec, d: Delivered, a: seq<string>, b: seq<string>, n: nat)
    requires n <= |a| && a <= b
    ensures Deliver(c, d, a, n) == Deliver(c, d, b, n)
  {
    if n == 0 {
    } else {
      DeliverOfPrefix(c, d, a, b, n - 1);
    }
  }

  lemma DeliverOneMore(c: Codec, d: Delivered, texts: seq<string>, t: string)
    ensures Deliver(c, d, texts + [t], |texts| + 1) ==
      if |t| >= 400 then Put(Deliver(c, d, texts, |texts|), c.handle(t), t) else Deliver(c, d, texts, |texts|)
  {
    DeliverOfPrefix(c, d, texts, texts + [t], |texts|);
  }

  /** One more text, which goes into the dictionary if it is large. */
  lemma DeliverStep(c: Codec, d: Delivered, texts: seq<string>, all: seq<string>, t: string)
    requires Deliver(c, d, texts, |texts|) == Dict(c, all, |all|)
    ensures Deliver(c, d, texts + [t], |texts| + 1) ==
      if |t| >= 400 then Dict(c, all + [t], |all| + 1) else Dict(c, all, |all|)
  {
    DeliverOneMore(c, d, texts, t);
    DictOneMore(c, all, t);
  }

  lemma TargetsStep(sites: seq<Site>, n: nat)
    requires 0 < n <= |sites|
    ensures Targets(sites, {}, n) == Targets(sites, {}, n - 1) + [sites[n - 1].text]
  {
  }

  /** Delivering the sites of a message is putting its large texts into the dictionary. */
  lemma {:induction false} DeliverIsDict(c: Codec, d: Delivered, before: seq<string>, sites: seq<Site>, n: nat)
    requires n <= |sites| && d == Dict(c, before, |before|)
    ensures var all := AndLarge(before, sites, n);
      Deliver(c, d, Targets(sites, {}, n), |Targets(sites, {}, n)|) == Dict(c, all, |all|)
  {
    if n == 0 {
    } else {
      DeliverIsDict(c, d, before, sites, n - 1);
      DeliverStep(c, d, Targets(sites, {}, n - 1), AndLarge(before, sites, n - 1), sites[n - 1].text);
      TargetsStep(sites, n);
    }
  }

  lemma {:induction false} DeliveredIsDict(c: Codec, msgs: Conv, n: nat)
    requires n <= |msgs|
    ensures DeliveredBy(c, msgs, n) == Dict(c, Large(msgs, n), |Large(msgs, n)|)
  {
    if n == 0 {
    } else {
      DeliveredIsDict(c, msgs, n - 1);
      DeliverIsDict(c, DeliveredBy(c, msgs, n - 1), Large(msgs, n - 1), Sites(msgs[n - 1]), |Sites(msgs[n - 1])|);
    }
  }

  /** The entry at j was introduced by text p, |d| - j introductions before the end, and holds text q. */
  predicate EntryIs(c: Codec, texts: seq<string>, n: nat, d: Delivered, j: nat, p: nat, q: nat) {
    && j < |d| && p < n <= |texts| && FirstUse(c, texts, p) && c.handle(texts[p]) == d[j].0
    && |UsesSince(c, texts, p, n)| == |d| - j
    && LastUse(c, texts, n, d[j].0, q) && texts[q] == d[j].1
  }

  ghost predicate Introduced(c: Codec, texts: seq<string>, n: nat, d: Delivered, j: nat) {
    exists p: nat, q: nat :: EntryIs(c, texts, n, d, j, p, q)
  }

  ghost predicate DictIs(c: Codec, texts: seq<string>, n: nat, d: Delivered)
    requires n <= |texts|
  {
    && (forall j: nat :: j < |d| ==> Introduced(c, texts, n, d, j))
    && (forall q :: 0 <= q < n ==> Has(d, c.handle(texts[q])))
  }

  lemma UsesGrow(c: Codec, texts: seq<string>, p: nat, n: nat)
    requires p <= n < |texts|
    ensures |UsesSince(c, texts, p, n + 1)| == |UsesSince(c, texts, p, n)| + if FirstUse(c, texts, n) then 1 else 0
  {
    PositionsGrow((q: nat) => q < |texts| && FirstUse(c, texts, q), p, n);
  }

  lemma HandlesAfterPut(c: Codec, texts: seq<string>, n: nat, d: Delivered)
    requires n < |texts| && forall q :: 0 <= q < n ==> Has(d, c.handle(texts[q]))
    ensures forall q :: 0 <= q < n + 1 ==> Has(Put(d, c.handle(texts[n]), texts[n]), c.handle(texts[q]))
  {
    forall q | 0 <= q < n + 1 ensures Has(Put(d, c.handle(texts[n]), texts[n]), c.handle(texts[q])) {
      HasAfterPut(d, c.handle(texts[n]), texts[n], c.handle(texts[q]));
    }
  }

  /** A handle in the dictionary is taken over by the new text, in its place. */
  lemma ReusedStep(c: Codec, texts: seq<string>, n: nat, d: Delivered)
    requires n < |texts| && DictIs(c, texts, n, d) && Has(d, c.handle(texts[n]))
    ensures DictIs(c, texts, n + 1, Put(d, c.handle(texts[n]), texts[n]))
  {
    var h, i, m := c.handle(texts[n]), Find(d, c.handle(texts[n])), n + 1;
    var d' := Put(d, h, texts[n]);
    assert Introduced(c, texts, n, d, i);
    var x: nat, y: nat :| EntryIs(c, texts, n, d, i, x, y);
    assert !FirstUse(c, texts, n);
    forall j: nat | j < |d'| ensures Introduced(c, texts, m, d', j) {
      assert Introduced(c, texts, n, d, j);
      var p: nat, q: nat :| EntryIs(c, texts, n, d, j, p, q);
      UsesGrow(c, texts, p, n);
      if d[j].0 == h {
        SameEntry(c, texts, n, d, i, j, x, y, p, q);
        assert EntryIs(c, texts, m, d', j, p, n);
      } else {
        assert EntryIs(c, texts, m, d', j, p, q);
      }
    }
    HandlesAfterPut(c, texts, n, d);
  }

  /** Two entries of one handle are one entry. */
  lemma SameEntry(c: Codec, texts: seq<string>, n: nat, d: Delivered, i: nat, j: nat, x: nat, y: nat, p: nat, q: nat)
    requires EntryIs(c, texts, n, d, i, x, y) && EntryIs(c, texts, n, d, j, p, q) && d[i].0 == d[j].0
    ensures i == j && x == p && y == q
  {
    assert x <= p && p <= x;
  }

  lemma HasAfterPut(d: Delivered, h: string, text: string, k: string)
    requires k == h || Has(d, k)
    ensures Has(Put(d, h, text), k)
  {
    var d' := Put(d, h, text);
    var j := if k == h then (if Has(d, h) then Find(d, h) else |d|) else Find(d, k);
    assert d'[j].0 == k;
  }

  /** A new handle is appended. */
  lemma NewStep(c: Codec, texts: seq<string>, n: nat, d: Delivered)
    requires n < |texts| && DictIs(c, texts, n, d) && !Has(d, c.handle(texts[n]))
    ensures DictIs(c, texts, n + 1, Put(d, c.handle(texts[n]), texts[n]))
  {
    var h, m := c.handle(texts[n]), n + 1;
    var d' := Put(d, h, texts[n]);
    assert FirstUse(c, texts, n);
    forall j: nat | j < |d'| ensures Introduced(c, texts, m, d', j) {
      if j == |d| {
        assert UsesSince(c, texts, n, n) == {};
        UsesGrow(c, texts, n, n);
        assert EntryIs(c, texts, m, d', j, n, n);
      } else {
        assert Introduced(c, texts, n, d, j);
        var p: nat, q: nat :| EntryIs(c, texts, n, d, j, p, q);
        UsesGrow(c, texts, p, n);
        assert EntryIs(c, texts, m, d', j, p, q);
      }
    }
    HandlesAfterPut(c, texts, n, d);
  }

  /** The dictionary holds, in the order in which they were introduced, the handles of the texts, each
      with the last text under it. */
  lemma {:induction false} DictHolds(c: Codec, texts: seq<string>, n: nat)
    requires n <= |texts|
    ensures DictIs(c, texts, n, Dict(c, texts, n))
  {
    if n == 0 {
    } else {
      DictHolds(c, texts, n - 1);
      if Has(Dict(c, texts, n - 1), c.handle(texts[n - 1])) {
        ReusedStep(c, texts, n - 1, Dict(c, texts, n - 1));
      } else {
        NewStep(c, texts, n - 1, Dict(c, texts, n - 1));
      }
    }
  }

  // ---------------------------------------------------------------- bases by introduction

  /** Entries stand in the order of their introductions. */
  lemma EntriesInOrder(c: Codec, texts: seq<string>, d: Delivered, i: nat, j: nat, x: nat, y: nat, p: nat, q: nat)
    requires EntryIs(c, texts, |texts|, d, i, x, y) && EntryIs(c, texts, |texts|, d, j, p, q) && i < j
    ensures x < p
  {
    if p <= x {
      SubsetSize(UsesSince(c, texts, x, |texts|), UsesSince(c, texts, p, |texts|));
    }
  }

  /** Where base i stands in the dictionary. */
  function Offset(d: Delivered): nat {
    |d| - |LastBases(d)|
  }

  lemma SimilarIsQualified(c: Codec, text: string, base: string)
    ensures Similar(c, text, base) <==> Qualifies(c, text, base)
  {
  }

  /** A base that the search considers was introduced by some text. */
  lemma BaseIntroduced(c: Codec, texts: seq<string>, d: Delivered, text: string, i: nat) returns (p: nat, q: nat)
    requires DictIs(c, texts, |texts|, d) && i < |LastBases(d)| && Qualifies(c, text, LastBases(d)[i].1)
    ensures EntryIs(c, texts, |texts|, d, Offset(d) + i, p, q)
    ensures IsBase(c, texts, text, p, q)
  {
    assert LastBases(d)[i] == d[Offset(d) + i];
    assert Introduced(c, texts, |texts|, d, Offset(d) + i);
    p, q :| EntryIs(c, texts, |texts|, d, Offset(d) + i, p, q);
    SimilarIsQualified(c, text, texts[q]);
  }

  /** Every base is considered by the search. */
  lemma BaseConsidered(c: Codec, texts: seq<string>, d: Delivered, text: string, p: nat, q: nat) returns (i: nat)
    requires DictIs(c, texts, |texts|, d) && IsBase(c, texts, text, p, q)
    ensures i < |LastBases(d)| && LastBases(d)[i].1 == texts[q] && Qualifies(c, text, texts[q])
    ensures EntryIs(c, texts, |texts|, d, Offset(d) + i, p, q)
  {
    var j := Find(d, c.handle(texts[p]));
    assert Has(d, c.handle(texts[p]));
    assert Introduced(c, texts, |texts|, d, j);
    var x: nat, y: nat :| EntryIs(c, texts, |texts|, d, j, x, y);
    assert x <= p && p <= x && y <= q && q <= y;
    i := j - Offset(d);
    assert LastBases(d)[i] == d[j];
    SimilarIsQualified(c, text, texts[q]);
  }

  lemma NoBaseFound(c: Codec, texts: seq<string>, d: Delivered, text: string)
    requires DictIs(c, texts, |texts|, d) && BestBase(c, text, LastBases(d), |LastBases(d)|).None?
    ensures !exists p: nat, q: nat :: IsBase(c, texts, text, p, q)
  {
    BestBaseIsFirstMaximum(c, text, LastBases(d), |LastBases(d)|);
    forall p: nat, q: nat ensures !IsBase(c, texts, text, p, q) {
      if IsBase(c, texts, text, p, q) {
        var i := BaseConsidered(c, texts, d, text, p, q);
        assert false;
      }
    }
  }

  lemma BeatsIndex(c: Codec, text: string, bases: Delivered, i: nat, k: nat)
    requires BestBase(c, text, bases, |bases|) == Some(i) && k < |bases| && Qualifies(c, text, bases[k].1)
    ensures if k < i then c.ratio(bases[k].1, text) < c.ratio(bases[i].1, text)
            else c.ratio(bases[k].1, text) <= c.ratio(bases[i].1, text)
  {
    BestBaseIsFirstMaximum(c, text, bases, |bases|);
  }

  lemma OneIntroduction(c: Codec, texts: seq<string>, d: Delivered, j: nat, p: nat, q: nat, r: nat, s: nat)
    requires EntryIs(c, texts, |texts|, d, j, p, q) && EntryIs(c, texts, |texts|, d, j, r, s)
    ensures p == r && q == s
  {
    assert p <= r && r <= p;
  }

  /** The search comes to bases in the order of their introductions. */
  lemma SearchOrder(c: Codec, texts: seq<string>, d: Delivered, i: nat, p: nat, q: nat, k: nat, r: nat, s: nat)
    requires EntryIs(c, texts, |texts|, d, i, p, q) && EntryIs(c, texts, |texts|, d, k, r, s) && i <= k
    ensures p <= r
  {
    if i < k {
      EntriesInOrder(c, texts, d, i, k, p, q, r, s);
    } else {
      OneIntroduction(c, texts, d, i, p, q, r, s);
    }
  }

  /** The base the search settles on is at least as good as any other. */
  lemma BeatsBase(c: Codec, texts: seq<string>, d: Delivered, text: string, i: nat, p: nat, q: nat, r: nat, s: nat)
    requires DictIs(c, texts, |texts|, d) && IsBase(c, texts, text, r, s)
    requires EntryIs(c, texts, |texts|, d, Offset(d) + i, p, q)
    requires BestBase(c, text, LastBases(d), |LastBases(d)|) == Some(i) && LastBases(d)[i].1 == texts[q]
    ensures c.ratio(texts[s], text) < c.ratio(texts[q], text)
      || (c.ratio(texts[s], text) == c.ratio(texts[q], text) && p <= r)
  {
    var k := BaseConsidered(c, texts, d, text, r, s);
    BeatsIndex(c, text, LastBases(d), i, k);
    if i <= k {
      SearchOrder(c, texts, d, Offset(d) + i, p, q, Offset(d) + k, r, s);
    }
  }

  lemma BestBaseFound(c: Codec, texts: seq<string>, d: Delivered, text: string) returns (p: nat, q: nat)
    requires DictIs(c, texts, |texts|, d) && BestBase(c, text, LastBases(d), |LastBases(d)|).Some?
    ensures IsBestBase(c, texts, text, p, q)
    ensures var bases := LastBases(d);
      bases[BestBase(c, text, bases, |bases|).value] == (c.handle(texts[p]), texts[q])
  {
    var i := BestBase(c, text, LastBases(d), |LastBases(d)|).value;
    p, q := BaseIntroduced(c, texts, d, text, i);
    assert LastBases(d)[i] == d[Offset(d) + i];
    forall r: nat, s: nat | IsBase(c, texts, text, r, s)
      ensures c.ratio(texts[s], text) < c.ratio(texts[q], text)
        || (c.ratio(texts[s], text) == c.ratio(texts[q], text) && p <= r)
    {
      BeatsBase(c, texts, d, text, i, p, q, r, s);
    }
  }

  // ---------------------------------------------------------------- every text of every conversation

  lemma {:induction false} NewlinesAre(text: string, n: nat)
    requires n <= |text|
    ensures Newlines(text, n) == |set k | 0 <= k < n && text[k] == '\n'|
  {
    if n == 0 {
    } else {
      NewlinesAre(text, n - 1);
      var before, after := set k | 0 <= k < n - 1 && text[k] == '\n', set k | 0 <= k < n && text[k] == '\n';
      if text[n - 1] == '\n' {
        assert after == before + {n - 1};
      } else {
        assert after == before;
      }
    }
  }

  lemma LinesAre(text: string)
    ensures Lines(text) == LineCount(text)
  {
    NewlinesAre(text, |text|);
  }

  lemma NearDuplicateIsDelta(c: Codec, handle: string, base: string, text: string)
    ensures IsDelta(c, handle, base, text, NearDuplicate(c, (handle, base), text))
  {
    LinesAre(text);
  }

  lemma HasIffUsed(c: Codec, texts: seq<string>, h: string)
    ensures Has(Dict(c, texts, |texts|), h) <==> exists p :: 0 <= p < |texts| && c.handle(texts[p]) == h
  {
    var d := Dict(c, texts, |texts|);
    DictHolds(c, texts, |texts|);
    if Has(d, h) {
      assert Introduced(c, texts, |texts|, d, Find(d, h));
      var p: nat, q: nat :| EntryIs(c, texts, |texts|, d, Find(d, h), p, q);
    }
  }

  lemma TextIsSentAs(c: Codec, texts: seq<string>, text: string)
    ensures SentAs(c, texts, text, EncodeText(c, Dict(c, texts, |texts|), text))
  {
    var d := Dict(c, texts, |texts|);
    HasIffUsed(c, texts, c.handle(text));
    LinesAre(text);
    if |text| >= 400 && !Has(d, c.handle(text)) {
      DictHolds(c, texts, |texts|);
      if BestBase(c, text, LastBases(d), |LastBases(d)|).None? {
        NoBaseFound(c, texts, d, text);
      } else {
        var p, q := BestBaseFound(c, texts, d, text);
        NearDuplicateIsDelta(c, c.handle(texts[p]), texts[q], text);
      }
    }
  }

  /** For every conversation, exempt ids and text in it: an exempt text goes out as it is; any other is
      sent exactly as the texts of the messages before it say. */
  lemma SiteIsSentAs(c: Codec, keep: set<string>, msgs: Conv, i: nat, k: nat)
    requires i < |msgs| && k < |Sites(msgs[i])|
    ensures var s, ws := Sites(msgs[i])[k], Wires(EncodeAll(c, keep, msgs)[i]);
      && |ws| == |Sites(msgs[i])|
      && if s.id.Some? && s.id.value in keep then ws[k] == Verbatim(s.text)
         else SentAs(c, Large(msgs, i), s.text, ws[k])
  {
    EncodedAt(c, keep, msgs, |msgs|, i);
    WiresOfMsg(c, DeliveredBy(c, msgs, i), keep, msgs[i]);
    DeliveredIsDict(c, msgs, i);
    TextIsSentAs(c, Large(msgs, i), Sites(msgs[i])[k].text);
  }

  /** The base is determined. */
  lemma BestBaseUnique(c: Codec, texts: seq<string>, text: string, p: nat, q: nat, r: nat, s: nat)
    requires IsBestBase(c, texts, text, p, q) && IsBestBase(c, texts, text, r, s)
    ensures p == r && q == s
  {
  }

  /** A large text whose handle no earlier text has is sent as a reference exactly when one of the last
      twelve handles stands for a similar text and, for the most similar one, the structural or else
      the textual marker is shorter than the text. */
  lemma SentAsReferenceIff(c: Codec, keep: set<string>, msgs: Conv, i: nat, k: nat)
    requires i < |msgs| && k < |Sites(msgs[i])| && |Sites(msgs[i])[k].text| >= 400
    requires Sites(msgs[i])[k].id.None? || Sites(msgs[i])[k].id.value !in keep
    requires forall t :: t in Large(msgs, i) ==> c.handle(t) != c.handle(Sites(msgs[i])[k].text)
    ensures var text, ws, texts := Sites(msgs[i])[k].text, Wires(EncodeAll(c, keep, msgs)[i]), Large(msgs, i);
      && |ws| == |Sites(msgs[i])|
      && (ws[k] != Verbatim(text) <==>
          exists p: nat, q: nat :: IsBestBase(c, texts, text, p, q)
            && (ShortStructure(c, c.handle(texts[p]), texts[q], text)
                || Shortens(c, Diff(c, c.handle(texts[p]), texts[q], text), text)))
  {
    var text, texts := Sites(msgs[i])[k].text, Large(msgs, i);
    SiteIsSentAs(c, keep, msgs, i, k);
    var w := Wires(EncodeAll(c, keep, msgs)[i])[k];
    assert !exists p :: 0 <= p < |texts| && c.handle(texts[p]) == c.handle(text);
    if exists p: nat, q: nat :: IsBase(c, texts, text, p, q) {
      var p: nat, q: nat :| IsBestBase(c, texts, text, p, q) && IsDelta(c, c.handle(texts[p]), texts[q], text, w);
      forall r: nat, s: nat | IsBestBase(c, texts, text, r, s) ensures r == p && s == q {
        BestBaseUnique(c, texts, text, p, q, r, s);
      }
    }
  }

  // ---------------------------------------------------------------- what the restore store gains

  /** Text k of message i repeats a handle or is sent as a reference: the cases in which it is stored. */
  ghost predicate IsStored(c: Codec, keep: set<string>, msgs: Conv, i: nat, k: nat, h: string) {
    && i < |msgs| && k < |Sites(msgs[i])| && k < |Wires(EncodeAll(c, keep, msgs)[i])|
    && var s := Sites(msgs[i])[k];
       && (s.id.None? || s.id.value !in keep) && |s.text| >= 400 && c.handle(s.text) == h
       && ((exists t :: t in Large(msgs, i) && c.handle(t) == h)
           || Wires(EncodeAll(c, keep, msgs)[i])[k] != Verbatim(s.text))
  }

  lemma StoredSite(c: Codec, keep: set<string>, msgs: Conv, i: nat, k: nat, h: string)
    requires i < |msgs| && k < |Sites(msgs[i])|
    ensures IsStored(c, keep, msgs, i, k, h) <==>
      var s := Sites(msgs[i])[k];
      !Exempt(s.id, keep) && Recorded(c, DeliveredBy(c, msgs, i), s.text) && c.handle(s.text) == h
  {
    var s := Sites(msgs[i])[k];
    EncodedAt(c, keep, msgs, |msgs|, i);
    WiresOfMsg(c, DeliveredBy(c, msgs, i), keep, msgs[i]);
    DeliveredIsDict(c, msgs, i);
    HasIffUsed(c, Large(msgs, i), h);
    ReferenceTarget(c, DeliveredBy(c, msgs, i), s.text);
  }

  /** Some text of message i is stored under h. */
  ghost predicate StoresIn(c: Codec, keep: set<string>, msgs: Conv, i: nat, h: string) {
    exists k: nat :: IsStored(c, keep, msgs, i, k, h)
  }

  lemma StoredInMessage(c: Codec, keep: set<string>, msgs: Conv, i: nat, h: string)
    requires i < |msgs|
    ensures var texts := MsgTargets(msgs[i], keep);
      FirstRecorded(c, DeliveredBy(c, msgs, i), texts, |texts|, h).Some? <==> StoresIn(c, keep, msgs, i, h)
  {
    var d, sites, texts := DeliveredBy(c, msgs, i), Sites(msgs[i]), MsgTargets(msgs[i], keep);
    SomeRecordedIff(c, d, texts, |texts|, h);
    if FirstRecorded(c, d, texts, |texts|, h).Some? {
      var j :| 0 <= j < |texts| && Recorded(c, d, texts[j]) && c.handle(texts[j]) == h;
      TargetsAre(sites, keep, |sites|, texts[j]);
      var k :| 0 <= k < |sites| && sites[k].text == texts[j] && !Exempt(sites[k].id, keep);
      StoredSite(c, keep, msgs, i, k, h);
    }
    if StoresIn(c, keep, msgs, i, h) {
      var k: nat :| IsStored(c, keep, msgs, i, k, h);
      StoredSite(c, keep, msgs, i, k, h);
      TargetsAre(sites, keep, |sites|, sites[k].text);
    }
  }

  lemma {:induction false} SomeRecordedIff(c: Codec, d: Delivered, texts: seq<string>, n: nat, h: string)
    requires n <= |texts|
    ensures FirstRecorded(c, d, texts, n, h).Some? <==>
            exists j :: 0 <= j < n && Recorded(c, d, texts[j]) && c.handle(texts[j]) == h
  {
    if n == 0 {
    } else {
      SomeRecordedIff(c, d, texts, n - 1, h);
    }
  }

  predicate RecordsIn(c: Codec, keep: set<string>, msgs: Conv, i: nat, h: string)
    requires i < |msgs|
  {
    var texts := MsgTargets(msgs[i], keep);
    FirstRecorded(c, DeliveredBy(c, msgs, i), texts, |texts|, h).Some?
  }

  lemma RecordedByStep(c: Codec, keep: set<string>, msgs: Conv, n: nat, h: string)
    requires n < |msgs|
    ensures FirstRecordedBy(c, keep, msgs, n + 1, h).Some? <==>
            FirstRecordedBy(c, keep, msgs, n, h).Some? || RecordsIn(c, keep, msgs, n, h)
  {
  }

  lemma RecordedByFrom(c: Codec, keep: set<string>, msgs: Conv, h: string) returns (i: nat)
    requires FirstRecordedBy(c, keep, msgs, |msgs|, h).Some?
    ensures i < |msgs| && RecordsIn(c, keep, msgs, i, h)
  {
    var holds := (n: nat) => n <= |msgs| && FirstRecordedBy(c, keep, msgs, n, h).Some?;
    i := Turns(holds, |msgs|);
    RecordedByStep(c, keep, msgs, i, h);
  }

  lemma RecordedByHas(c: Codec, keep: set<string>, msgs: Conv, h: string, i: nat)
    requires i < |msgs| && RecordsIn(c, keep, msgs, i, h)
    ensures FirstRecordedBy(c, keep, msgs, |msgs|, h).Some?
  {
    RecordedByStep(c, keep, msgs, i, h);
    OwnerLasts(c, keep, msgs, i + 1, |msgs|, h);
  }

  /** The store a run leaves has, besides its old handles, exactly those of the texts that repeat an
      earlier handle or are sent as references; old entries stay. */
  lemma StoreHoldsIff(c: Codec, keep: set<string>, msgs: Conv, fx: Effects, h: string)
    ensures var after := AfterMsgs(c, keep, msgs, |msgs|, fx).entries;
      && (h in after <==> h in fx.entries || exists i: nat :: i < |msgs| && StoresIn(c, keep, msgs, i, h))
      && (h in fx.entries && h in after ==> after[h] == fx.entries[h])
  {
    EntriesAfterMsgs(c, keep, msgs, |msgs|, fx, h);
    if FirstRecordedBy(c, keep, msgs, |msgs|, h).Some? {
      var i := RecordedByFrom(c, keep, msgs, h);
      StoredInMessage(c, keep, msgs, i, h);
    }
    if i: nat :| i < |msgs| && StoresIn(c, keep, msgs, i, h) {
      StoredInMessage(c, keep, msgs, i, h);
      RecordedByHas(c, keep, msgs, h, i);
    }
  }
}
