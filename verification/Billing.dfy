/**
  The cache-aware bill of a session (benchmarks/codebench.py, `_session_dollars`) and what the
  cache-delta walk does to it.
*/
module Billing {
  import opened Wrappers
  import opened Conversation
  import opened CacheDelta
  import opened CacheDeltaLaws

  datatype Pricing = Pricing(cacheRead: real, input: real)

  /** The library functions of the cost model: message hash and message token count. */
  datatype Meter = Meter(hash: Msg<string> -> string, tokens: Msg<string> -> nat)

  /** Tokens of messages lo..hi. */
  function Tokens(meter: Meter, msgs: Conv, lo: nat, hi: nat): nat
    requires lo <= hi <= |msgs|
  {
    if lo == hi then 0 else Tokens(meter, msgs, lo, hi - 1) + meter.tokens(msgs[hi - 1])
  }

  /** So many tokens, each at the rate. */
  function AtRate(rate: real, tokens: nat): real {
    if tokens == 0 then 0.0 else AtRate(rate, tokens - 1) + rate
  }

  /** A turn whose first k messages are read from the cache. */
  function TurnCost(meter: Meter, p: Pricing, msgs: Conv, k: nat): real
    requires k <= |msgs|
  {
    AtRate(p.cacheRead, Tokens(meter, msgs, 0, k)) + AtRate(p.input, Tokens(meter, msgs, k, |msgs|))
  }

  /** Messages of turn n that match the previous turn's from the start; the first turn has none. */
  function CachedPrefix(meter: Meter, turns: seq<Conv>, n: nat): (k: nat)
    requires n < |turns|
    ensures k <= |turns[n]|
  {
    if n == 0 then 0 else CommonPrefix(Hashes(meter.hash, turns[n]), Hashes(meter.hash, turns[n - 1]))
  }

  function Bill(meter: Meter, p: Pricing, turns: seq<Conv>, n: nat): real
    requires n <= |turns|
  {
    if n == 0 then 0.0
    else Bill(meter, p, turns, n - 1) + TurnCost(meter, p, turns[n - 1], CachedPrefix(meter, turns, n - 1))
  }

  lemma {:induction false} AtRateIsProduct(rate: real, tokens: nat)
    ensures AtRate(rate, tokens) == tokens as real * rate
  {
    if tokens == 0 {
    } else {
      AtRateIsProduct(rate, tokens - 1);
    }
  }

  method SumTokens(meter: Meter, msgs: Conv, lo: nat, hi: nat) returns (sum: nat)
    requires lo <= hi <= |msgs|
    ensures sum == Tokens(meter, msgs, lo, hi)
  {
    sum := 0;
    for i := lo to hi
      invariant sum == Tokens(meter, msgs, lo, i)
    {
      sum := sum + meter.tokens(msgs[i]);
    }
  }

  method TurnDollars(meter: Meter, p: Pricing, msgs: Conv, lcp: nat) returns (cost: real)
    requires lcp <= |msgs|
    ensures cost == TurnCost(meter, p, msgs, lcp)
  {
    var read := SumTokens(meter, msgs, 0, lcp);
    var uncached := SumTokens(meter, msgs, lcp, |msgs|);
    cost := read as real * p.cacheRead + uncached as real * p.input;
    AtRateIsProduct(p.cacheRead, read);
    AtRateIsProduct(p.input, uncached);
  }

  method SessionDollars(meter: Meter, p: Pricing, turns: seq<Conv>) returns (total: real)
    ensures total == Bill(meter, p, turns, |turns|)
  {
    total := 0.0;
    var prev: Option<seq<string>> := None;
    for n := 0 to |turns|
      invariant total == Bill(meter, p, turns, n)
      invariant prev == if n == 0 then None else Some(Hashes(meter.hash, turns[n - 1]))
    {
      var msgs := turns[n];
      var hashes := Hashes(meter.hash, msgs);
      var lcp := 0;
      if prev.Some? {
        lcp := CountCommonPrefix(hashes, prev.value);
      }
      var cost := TurnDollars(meter, p, msgs, lcp);
      total := total + cost;
      prev := Some(hashes);
    }
  }

  /** The first k hashes of a and b agree, and no more do. */
  predicate AgreeFor(meter: Meter, a: Conv, b: Conv, k: nat) {
    && k <= |a| && k <= |b|
    && (forall i :: 0 <= i < k ==> meter.hash(a[i]) == meter.hash(b[i]))
    && (k < |a| && k < |b| ==> meter.hash(a[k]) != meter.hash(b[k]))
  }

  lemma CachedIs(meter: Meter, turns: seq<Conv>, n: nat, k: nat)
    requires n < |turns| && (if n == 0 then k == 0 else AgreeFor(meter, turns[n], turns[n - 1], k))
    ensures k == CachedPrefix(meter, turns, n)
  {
    if n > 0 {
      var now, before := Hashes(meter.hash, turns[n]), Hashes(meter.hash, turns[n - 1]);
      assert now[..k] == before[..k];
      CommonPrefixIs(now, before, k);
    }
  }

  /** What one more turn costs: the messages it shares with the turn before at the read price, all
      others at the input price. The first turn shares none. */
  lemma TurnAdds(meter: Meter, p: Pricing, turns: seq<Conv>, n: nat, k: nat)
    requires n < |turns| && (if n == 0 then k == 0 else AgreeFor(meter, turns[n], turns[n - 1], k))
    ensures k <= |turns[n]|
    ensures Bill(meter, p, turns, n + 1) == Bill(meter, p, turns, n)
      + AtRate(p.cacheRead, Tokens(meter, turns[n], 0, k)) + AtRate(p.input, Tokens(meter, turns[n], k, |turns[n]|))
  {
    CachedIs(meter, turns, n, k);
  }

  /** The tokens of a range are also added up from its front. */
  lemma {:induction false} TokensFromFront(meter: Meter, msgs: Conv, lo: nat, hi: nat)
    requires lo <= hi <= |msgs|
    ensures lo == hi ==> Tokens(meter, msgs, lo, hi) == 0
    ensures lo < hi ==> Tokens(meter, msgs, lo, hi) == meter.tokens(msgs[lo]) + Tokens(meter, msgs, lo + 1, hi)
  {
    if lo + 1 < hi {
      TokensFromFront(meter, msgs, lo, hi - 1);
    }
  }

  // ---------------------------------------------------------------- the sent session

  function RenderParts(c: Codec, parts: seq<Part<Wire>>): seq<Part<string>> {
    seq(|parts|, i requires 0 <= i < |parts| =>
      match parts[i]
      case TextPart(w, rest) => TextPart(Render(c, w), rest)
      case OtherPart(rest) => OtherPart(rest))
  }

  function RenderBlocks(c: Codec, blocks: seq<Block<Wire>>): seq<Block<string>> {
    seq(|blocks|, i requires 0 <= i < |blocks| =>
      match blocks[i]
      case TextResult(id, w, rest) => TextResult(id, Render(c, w), rest)
      case PartsResult(id, parts, rest) => PartsResult(id, RenderParts(c, parts), rest)
      case OtherBlock(rest) => OtherBlock(rest))
  }

  function RenderMsg(c: Codec, m: Msg<Wire>): Msg<string> {
    match m
    case TextMsg(role, id, w, rest) => TextMsg(role, id, Render(c, w), rest)
    case ToolListMsg(id, parts, rest) => ToolListMsg(id, RenderParts(c, parts), rest)
    case BlockListMsg(blocks, rest) => BlockListMsg(RenderBlocks(c, blocks), rest)
    case OpaqueMsg(rest) => OpaqueMsg(rest)
  }

  /** One turn as it goes over the wire. */
  function Sent(c: Codec, keep: set<string>, msgs: Conv): (out: Conv)
    ensures |out| == |msgs|
  {
    var coded := EncodeAll(c, keep, msgs);
    seq(|msgs|, i requires 0 <= i < |msgs| => RenderMsg(c, coded[i]))
  }

  /** Turn n sent with its own exemption set. */
  function SentTurns(c: Codec, keeps: seq<set<string>>, turns: seq<Conv>): (out: seq<Conv>)
    requires |keeps| == |turns|
    ensures |out| == |turns|
  {
    seq(|turns|, n requires 0 <= n < |turns| => Sent(c, keeps[n], turns[n]))
  }

  /** The hash tells the raw messages of the session apart. */
  predicate HashFaithful(meter: Meter, turns: seq<Conv>) {
    forall m, n, i, j ::
      (&& 0 <= m < |turns| && 0 <= n < |turns| && 0 <= i < |turns[m]| && 0 <= j < |turns[n]|
       && meter.hash(turns[m][i]) == meter.hash(turns[n][j])) ==> turns[m][i] == turns[n][j]
  }

  /** No sent message has more tokens than the message it replaces. */
  predicate NoGain(meter: Meter, turns: seq<Conv>, sent: seq<Conv>)
    requires |turns| == |sent|
  {
    forall n :: 0 <= n < |turns| ==> TurnNoGain(meter, turns[n], sent[n])
  }

  predicate TurnNoGain(meter: Meter, raw: Conv, sent: Conv) {
    |raw| == |sent| && forall i :: 0 <= i < |raw| ==> meter.tokens(sent[i]) <= meter.tokens(raw[i])
  }

  // ---------------------------------------------------------------- cached prefixes never shrink

  lemma {:induction false} CommonPrefixAtLeast<T>(a: seq<T>, b: seq<T>, n: nat)
    requires n <= |a| && n <= |b| && a[..n] == b[..n]
    ensures n <= CommonPrefix(a, b)
  {
    if n == 0 {
    } else {
      assert a[0] == a[..n][0] == b[..n][0] == b[0];
      assert a[1..][..n - 1] == a[..n][1..] == b[..n][1..] == b[1..][..n - 1];
      CommonPrefixAtLeast(a[1..], b[1..], n - 1);
    }
  }

  lemma RawPrefixShared(meter: Meter, turns: seq<Conv>, n: nat)
    requires 0 < n < |turns| && HashFaithful(meter, turns)
    ensures var k := CachedPrefix(meter, turns, n);
      k <= |turns[n - 1]| && turns[n][..k] == turns[n - 1][..k]
  {
    var k := CachedPrefix(meter, turns, n);
    var a, b := Hashes(meter.hash, turns[n]), Hashes(meter.hash, turns[n - 1]);
    forall i | 0 <= i < k ensures turns[n][i] == turns[n - 1][i] {
      assert a[i] == a[..k][i] == b[..k][i] == b[i];
    }
  }

  /** Between turns n-1 and n the exemptions change only for sites of the raw cached prefix that
      would not be replaced anyway. */
  predicate HarmlessChange(c: Codec, keeps: seq<set<string>>, meter: Meter, turns: seq<Conv>, n: nat)
    requires 0 < n < |turns| == |keeps|
  {
    forall i, s :: 0 <= i < CachedPrefix(meter, turns, n) && s in Sites(turns[n][i]) ==>
      SameTreatment(c, DeliveredBy(c, turns[n], i), keeps[n], keeps[n - 1], s)
  }

  lemma SharedHashes(c: Codec, meter: Meter, a: Conv, b: Conv, ka: set<string>, kb: set<string>, k: nat)
    requires k <= |a| && k <= |b| && EncodeAll(c, ka, a)[..k] == EncodeAll(c, kb, b)[..k]
    ensures k <= CommonPrefix(Hashes(meter.hash, Sent(c, ka, a)), Hashes(meter.hash, Sent(c, kb, b)))
  {
    var x, y := EncodeAll(c, ka, a), EncodeAll(c, kb, b);
    var g, h := Hashes(meter.hash, Sent(c, ka, a)), Hashes(meter.hash, Sent(c, kb, b));
    forall i | 0 <= i < k ensures g[i] == h[i] {
      assert x[i] == x[..k][i] == y[..k][i] == y[i];
    }
    CommonPrefixAtLeast(g, h, k);
  }

  /** What was cached of the raw turns is sent alike in both. */
  lemma CachedSentAlike(c: Codec, keeps: seq<set<string>>, meter: Meter, turns: seq<Conv>, n: nat)
    requires 0 < n < |turns| == |keeps| && HashFaithful(meter, turns) && HarmlessChange(c, keeps, meter, turns, n)
    ensures var k := CachedPrefix(meter, turns, n);
      && k <= |turns[n - 1]|
      && EncodeAll(c, keeps[n], turns[n])[..k] == EncodeAll(c, keeps[n - 1], turns[n - 1])[..k]
  {
    RawPrefixShared(meter, turns, n);
    PrefixKeptIff(c, keeps[n], keeps[n - 1], turns[n], turns[n - 1], CachedPrefix(meter, turns, n));
  }

  lemma SentCachedIs(c: Codec, keeps: seq<set<string>>, meter: Meter, turns: seq<Conv>, n: nat)
    requires 0 < n < |turns| == |keeps|
    ensures CachedPrefix(meter, SentTurns(c, keeps, turns), n) ==
            CommonPrefix(Hashes(meter.hash, Sent(c, keeps[n], turns[n])),
              Hashes(meter.hash, Sent(c, keeps[n - 1], turns[n - 1])))
  {
  }

  /** Turn by turn, at least as many leading messages of the sent session hit the cache as of the raw one. */
  lemma SentPrefixNotShorter(c: Codec, keeps: seq<set<string>>, meter: Meter, turns: seq<Conv>, n: nat)
    requires n < |turns| == |keeps| && HashFaithful(meter, turns)
    requires n > 0 ==> HarmlessChange(c, keeps, meter, turns, n)
    ensures CachedPrefix(meter, turns, n) <= CachedPrefix(meter, SentTurns(c, keeps, turns), n)
  {
    if n == 0 {
    } else {
      var k := CachedPrefix(meter, turns, n);
      CachedSentAlike(c, keeps, meter, turns, n);
      SharedHashes(c, meter, turns[n], turns[n - 1], keeps[n], keeps[n - 1], k);
      SentCachedIs(c, keeps, meter, turns, n);
    }
  }

  // ---------------------------------------------------------------- the bill

  lemma {:induction false} TokensSplit(meter: Meter, msgs: Conv, lo: nat, mid: nat, hi: nat)
    requires lo <= mid <= hi <= |msgs|
    ensures Tokens(meter, msgs, lo, hi) == Tokens(meter, msgs, lo, mid) + Tokens(meter, msgs, mid, hi)
  {
    if mid == hi {
    } else {
      TokensSplit(meter, msgs, lo, mid, hi - 1);
    }
  }

  lemma {:induction false} TokensShrink(meter: Meter, raw: Conv, sent: Conv, lo: nat, hi: nat)
    requires lo <= hi <= |raw| && TurnNoGain(meter, raw, sent)
    ensures Tokens(meter, sent, lo, hi) <= Tokens(meter, raw, lo, hi)
  {
    if lo == hi {
    } else {
      TokensShrink(meter, raw, sent, lo, hi - 1);
    }
  }

  lemma {:induction false} AtRateAdds(rate: real, a: nat, b: nat)
    ensures AtRate(rate, a + b) == AtRate(rate, a) + AtRate(rate, b)
  {
    if b == 0 {
    } else {
      AtRateAdds(rate, a, b - 1);
    }
  }

  lemma {:induction false} AtRateGrows(low: real, high: real, a: nat, b: nat)
    requires 0.0 <= low <= high && a <= b
    ensures AtRate(low, a) <= AtRate(high, b)
  {
    if b == 0 {
    } else {
      AtRateGrows(low, high, if a == 0 then 0 else a - 1, b - 1);
    }
  }

  /** a + b raw tokens and x + y + z sent ones, of which a, and x + y, are cached. */
  lemma CheaperTokens(low: real, high: real, a: nat, b: nat, x: nat, y: nat, z: nat)
    requires 0.0 <= low <= high && y + z <= b
    ensures AtRate(low, x + y) + AtRate(high, z) + AtRate(low, a + b) <=
            AtRate(low, a) + AtRate(high, b) + AtRate(low, x + y + z)
  {
    AtRateAdds(low, a, b);
    AtRateAdds(low, x + y, z);
    AtRateAdds(low, b - z, z);
    AtRateAdds(high, b - z, z);
    AtRateGrows(low, high, b - z, b - z);
  }

  /** Price of the tokens saved in a turn, all at the cache-read rate. */
  function TurnSaving(meter: Meter, p: Pricing, raw: Conv, sent: Conv): real {
    AtRate(p.cacheRead, Tokens(meter, raw, 0, |raw|)) - AtRate(p.cacheRead, Tokens(meter, sent, 0, |sent|))
  }

  /** One turn: shorter messages and a longer cached prefix cost less, by at least the saved tokens
      at the cache-read price. */
  lemma TurnCheaper(meter: Meter, p: Pricing, raw: Conv, sent: Conv, k: nat, l: nat)
    requires 0.0 <= p.cacheRead <= p.input && TurnNoGain(meter, raw, sent) && k <= l <= |raw|
    ensures TurnCost(meter, p, sent, l) + TurnSaving(meter, p, raw, sent) <= TurnCost(meter, p, raw, k)
  {
    var n := |raw|;
    TokensSplit(meter, raw, 0, k, n);
    TokensSplit(meter, sent, 0, k, l);
    TokensSplit(meter, sent, 0, l, n);
    TokensSplit(meter, sent, k, l, n);
    TokensShrink(meter, raw, sent, k, n);
    CheaperTokens(p.cacheRead, p.input, Tokens(meter, raw, 0, k), Tokens(meter, raw, k, n),
      Tokens(meter, sent, 0, k), Tokens(meter, sent, k, l), Tokens(meter, sent, l, n));
  }

  function AllTokens(meter: Meter, turns: seq<Conv>, n: nat): nat
    requires n <= |turns|
  {
    if n == 0 then 0 else AllTokens(meter, turns, n - 1) + Tokens(meter, turns[n - 1], 0, |turns[n - 1]|)
  }

  /** Price of all the tokens saved in the first n turns, at the cache-read rate. */
  function Saving(meter: Meter, p: Pricing, turns: seq<Conv>, sent: seq<Conv>, n: nat): real
    requires n <= |turns| == |sent|
  {
    AtRate(p.cacheRead, AllTokens(meter, turns, n)) - AtRate(p.cacheRead, AllTokens(meter, sent, n))
  }

  lemma SavingAdds(meter: Meter, p: Pricing, turns: seq<Conv>, sent: seq<Conv>, n: nat)
    requires n < |turns| == |sent|
    ensures Saving(meter, p, turns, sent, n + 1) ==
            Saving(meter, p, turns, sent, n) + TurnSaving(meter, p, turns[n], sent[n])
  {
    AtRateAdds(p.cacheRead, AllTokens(meter, turns, n), Tokens(meter, turns[n], 0, |turns[n]|));
    AtRateAdds(p.cacheRead, AllTokens(meter, sent, n), Tokens(meter, sent[n], 0, |sent[n]|));
  }

  lemma {:induction false} NoMoreTokens(meter: Meter, turns: seq<Conv>, sent: seq<Conv>, n: nat)
    requires n <= |turns| == |sent| && NoGain(meter, turns, sent)
    ensures AllTokens(meter, sent, n) <= AllTokens(meter, turns, n)
  {
    if n == 0 {
    } else {
      NoMoreTokens(meter, turns, sent, n - 1);
      assert TurnNoGain(meter, turns[n - 1], sent[n - 1]);
      TokensShrink(meter, turns[n - 1], sent[n - 1], 0, |turns[n - 1]|);
    }
  }

  /** In none of the first n turns do fewer messages hit the cache. */
  predicate PrefixesKept(meter: Meter, turns: seq<Conv>, sent: seq<Conv>, n: nat)
    requires n <= |turns| == |sent|
  {
    forall i :: 0 <= i < n ==> CachedPrefix(meter, turns, i) <= CachedPrefix(meter, sent, i)
  }

  /** The bill of the first n turns is cheaper by what they save. */
  predicate Cheaper(meter: Meter, p: Pricing, turns: seq<Conv>, sent: seq<Conv>, n: nat)
    requires n <= |turns| == |sent|
  {
    Bill(meter, p, sent, n) + Saving(meter, p, turns, sent, n) <= Bill(meter, p, turns, n)
  }

  /** One more turn leaves the bill cheaper by what is saved, if it was so before. */
  lemma CheaperStep(meter: Meter, p: Pricing, turns: seq<Conv>, sent: seq<Conv>, n: nat)
    requires n < |turns| == |sent| && 0.0 <= p.cacheRead <= p.input && TurnNoGain(meter, turns[n], sent[n])
    requires CachedPrefix(meter, turns, n) <= CachedPrefix(meter, sent, n)
    requires Cheaper(meter, p, turns, sent, n)
    ensures Cheaper(meter, p, turns, sent, n + 1)
  {
    TurnCheaper(meter, p, turns[n], sent[n], CachedPrefix(meter, turns, n), CachedPrefix(meter, sent, n));
    SavingAdds(meter, p, turns, sent, n);
  }

  /** Whatever the transform: if no message gains tokens and no cached prefix shrinks, the bill does not
      grow, and it shrinks by at least every saved token at the cache-read price. */
  lemma {:induction false} CheaperTurnsCheaperBill(meter: Meter, p: Pricing, turns: seq<Conv>, sent: seq<Conv>,
      n: nat)
    requires n <= |turns| == |sent| && 0.0 <= p.cacheRead <= p.input && NoGain(meter, turns, sent)
    requires PrefixesKept(meter, turns, sent, n)
    ensures Cheaper(meter, p, turns, sent, n)
  {
    if n == 0 {
    } else {
      CheaperTurnsCheaperBill(meter, p, turns, sent, n - 1);
      assert TurnNoGain(meter, turns[n - 1], sent[n - 1]);
      CheaperStep(meter, p, turns, sent, n - 1);
    }
  }

  /** For every session whose exemptions change only harmlessly: the cached bill is no larger, and it
      is smaller by at least every saved token at the cache-read price. */
  lemma BillNotLarger(c: Codec, keeps: seq<set<string>>, meter: Meter, p: Pricing, turns: seq<Conv>)
    requires |turns| == |keeps| && 0.0 <= p.cacheRead <= p.input && HashFaithful(meter, turns)
    requires forall n :: 0 < n < |turns| ==> HarmlessChange(c, keeps, meter, turns, n)
    requires NoGain(meter, turns, SentTurns(c, keeps, turns))
    ensures var sent, n := SentTurns(c, keeps, turns), |turns|;
      && Bill(meter, p, sent, n) + Saving(meter, p, turns, sent, n) <= Bill(meter, p, turns, n)
      && 0.0 <= Saving(meter, p, turns, sent, n)
  {
    var sent := SentTurns(c, keeps, turns);
    forall i | 0 <= i < |turns| ensures CachedPrefix(meter, turns, i) <= CachedPrefix(meter, sent, i) {
      SentPrefixNotShorter(c, keeps, meter, turns, i);
    }
    CheaperTurnsCheaperBill(meter, p, turns, sent, |turns|);
    NoMoreTokens(meter, turns, sent, |turns|);
    AtRateGrows(p.cacheRead, p.cacheRead, AllTokens(meter, sent, |turns|), AllTokens(meter, turns, |turns|));
  }

  /** In particular under one exemption set throughout, as the coding benchmark runs it. */
  lemma FixedExemptionsBillNotLarger(c: Codec, keep: set<string>, meter: Meter, p: Pricing, turns: seq<Conv>)
    requires 0.0 <= p.cacheRead <= p.input && HashFaithful(meter, turns)
    requires NoGain(meter, turns, SentTurns(c, seq(|turns|, _ => keep), turns))
    ensures Bill(meter, p, SentTurns(c, seq(|turns|, _ => keep), turns), |turns|) <= Bill(meter, p, turns, |turns|)
  {
    var keeps := seq(|turns|, _ => keep);
    forall n | 0 < n < |turns| ensures HarmlessChange(c, keeps, meter, turns, n) {
    }
    BillNotLarger(c, keeps, meter, p, turns);
  }

  // ---------------------------------------------------------------- exemptions that move

  /** Handles are the texts themselves; every marker is 300 characters long. */
  function PlainCodec(): Codec {
    Codec(t => t, _ => None, (_, _) => 0.0, (_, _) => 0.0, (_, _, _) => "", _ => seq(300, _ => 'm'), t => |t|)
  }

  function ResultText(id: string, text: string): Msg<string> {
    TextMsg(ToolRole, Some(id), text, "")
  }

  /** One token a character; the hash is the text followed by the id. */
  function PlainMeter(): Meter {
    Meter((m: Msg<string>) => if m.TextMsg? && m.callId.Some? then m.text + m.callId.value else "",
          (m: Msg<string>) => if m.TextMsg? then |m.text| else 0)
  }

  /** A conversation in which one result is read again: the first read of the second turn's exempt
      result was exempt itself in the first turn. */
  function MovingTurns(): seq<Conv> {
    var a := Repeat('a');
    [[ResultText("1", a), ResultText("2", a)], [ResultText("1", a), ResultText("2", a), ResultText("3", a)]]
  }

  /** What the second turn is sent as: the second result, no longer exempt, becomes a reference. */
  function MovedTurn(): Conv {
    [ResultText("1", Repeat('a')), ResultText("2", seq(300, _ => 'm')), ResultText("3", Repeat('a'))]
  }

  lemma FewTokens(meter: Meter, msgs: Conv)
    requires |msgs| == 2
    ensures Tokens(meter, msgs, 0, 0) == 0
    ensures Tokens(meter, msgs, 0, 2) == meter.tokens(msgs[0]) + meter.tokens(msgs[1])
  {
    assert Tokens(meter, msgs, 0, 1) == Tokens(meter, msgs, 0, 0) + meter.tokens(msgs[0]);
  }

  lemma MoreTokens(meter: Meter, msgs: Conv)
    requires |msgs| == 3
    ensures Tokens(meter, msgs, 0, 1) == meter.tokens(msgs[0])
    ensures Tokens(meter, msgs, 0, 2) == meter.tokens(msgs[0]) + meter.tokens(msgs[1])
    ensures Tokens(meter, msgs, 1, 3) == meter.tokens(msgs[1]) + meter.tokens(msgs[2])
    ensures Tokens(meter, msgs, 2, 3) == meter.tokens(msgs[2])
  {
    assert Tokens(meter, msgs, 0, 1) == Tokens(meter, msgs, 0, 0) + meter.tokens(msgs[0]);
    assert Tokens(meter, msgs, 1, 2) == Tokens(meter, msgs, 1, 1) + meter.tokens(msgs[1]);
    assert Tokens(meter, msgs, 2, 3) == Tokens(meter, msgs, 2, 2) + meter.tokens(msgs[2]);
  }

  /** Delivering the repeated text again changes nothing. */
  lemma RepeatDelivers()
    ensures var c, a := PlainCodec(), Repeat('a');
      Deliver(c, [], [a], 1) == [(a, a)] && Deliver(c, [(a, a)], [a], 1) == [(a, a)]
  {
    var a := Repeat('a');
    var once := [(a, a)];
    assert Deliver(PlainCodec(), [], [a], 0) == [] && Put([], a, a) == once;
    assert Deliver(PlainCodec(), once, [a], 0) == once && Put(once, a, a) == once;
  }

  lemma MovingDelivered(turn: Conv, n: nat)
    requires turn in MovingTurns() && 0 < n < |turn|
    ensures DeliveredBy(PlainCodec(), turn, n) == [(Repeat('a'), Repeat('a'))]
  {
    OneResultTarget("1", Repeat('a'));
    OneResultTarget("2", Repeat('a'));
    RepeatDelivers();
    assert DeliveredBy(PlainCodec(), turn, 0) == [];
    assert DeliveredBy(PlainCodec(), turn, 1) == [(Repeat('a'), Repeat('a'))];
  }

  lemma RepeatIsReferred()
    ensures var c, a := PlainCodec(), Repeat('a');
      EncodeText(c, [], a) == Verbatim(a) && EncodeText(c, [(a, a)], a).ExactRef?
  {
    var once := [(Repeat('a'), Repeat('a'))];
    assert Has(once, Repeat('a'));
  }

  lemma MovingSent()
    ensures var c, turns := PlainCodec(), MovingTurns();
      Sent(c, {"2"}, turns[0]) == turns[0] && Sent(c, {"3"}, turns[1]) == MovedTurn()
  {
    var c, first, second := PlainCodec(), MovingTurns()[0], MovingTurns()[1];
    RepeatIsReferred();
    MovingDelivered(first, 1);
    MovingDelivered(second, 1);
    MovingDelivered(second, 2);
    EncodedAt(c, {"2"}, first, 2, 0);
    EncodedAt(c, {"2"}, first, 2, 1);
    EncodedAt(c, {"3"}, second, 3, 0);
    EncodedAt(c, {"3"}, second, 3, 1);
    EncodedAt(c, {"3"}, second, 3, 2);
    assert DeliveredBy(c, first, 0) == DeliveredBy(c, second, 0) == [];
  }

  lemma OneResultTarget(id: string, text: string)
    ensures MsgTargets(ResultText(id, text), {}) == [text]
  {
    assert Sites(ResultText(id, text)) == [Site(text, Some(id))];
    assert Targets([Site(text, Some(id))], {}, 0) == [];
  }

  lemma MovingHashes()
    ensures var hash, turns := PlainMeter().hash, MovingTurns();
      var first, second, moved := Hashes(hash, turns[0]), Hashes(hash, turns[1]), Hashes(hash, MovedTurn());
      && first[0] != first[1] && second[0] != second[2] && second[1] != second[2]
      && CommonPrefix(second, first) == 2 && CommonPrefix(moved, first) == 1
  {
    var hash, turns := PlainMeter().hash, MovingTurns();
    var first, second, moved := Hashes(hash, turns[0]), Hashes(hash, turns[1]), Hashes(hash, MovedTurn());
    assert first[0] == second[0] == moved[0] == Repeat('a') + "1";
    assert first[1] == second[1] == Repeat('a') + "2" && second[2] == Repeat('a') + "3";
    assert first[0][400] == '1' && first[1][400] == '2' && second[2][400] == '3';
    assert |moved[1]| == 301 && |first[1]| == 401;
    CommonPrefixIs(second, first, 2);
    CommonPrefixIs(moved, first, 1);
  }

  lemma BillOfTwoTurns(meter: Meter, p: Pricing, first: Conv, second: Conv)
    ensures Bill(meter, p, [first, second], 2) ==
            TurnCost(meter, p, first, 0)
            + TurnCost(meter, p, second, CommonPrefix(Hashes(meter.hash, second), Hashes(meter.hash, first)))
  {
    var turns := [first, second];
    assert Bill(meter, p, turns, 1) == Bill(meter, p, turns, 0) + TurnCost(meter, p, first, 0);
  }

  lemma MovingBills()
    ensures var meter, p, turns := PlainMeter(), Pricing(0.1, 1.0), MovingTurns();
      && Bill(meter, p, turns, 2) == 1280.0
      && Bill(meter, p, [turns[0], MovedTurn()], 2) == 1540.0
  {
    var meter, p, turns := PlainMeter(), Pricing(0.1, 1.0), MovingTurns();
    MovingHashes();
    FewTokens(meter, turns[0]);
    MoreTokens(meter, turns[1]);
    MoreTokens(meter, MovedTurn());
    AtRateIsProduct(1.0, 400);
    AtRateIsProduct(1.0, 700);
    AtRateIsProduct(1.0, 800);
    AtRateIsProduct(0.1, 400);
    AtRateIsProduct(0.1, 800);
    assert turns == [turns[0], turns[1]];
    BillOfTwoTurns(meter, p, turns[0], turns[1]);
    BillOfTwoTurns(meter, p, turns[0], MovedTurn());
  }

  lemma MovingFaithful()
    ensures HashFaithful(PlainMeter(), MovingTurns())
  {
    MovingHashes();
    var hash, turns := PlainMeter().hash, MovingTurns();
    var h := Hashes(hash, turns[1]);
    assert hash(turns[1][0]) == h[0] && hash(turns[1][1]) == h[1] && hash(turns[1][2]) == h[2];
    assert turns[0][0] == turns[1][0] && turns[0][1] == turns[1][1];
  }

  lemma MovingNoGain()
    ensures NoGain(PlainMeter(), MovingTurns(), [MovingTurns()[0], MovedTurn()])
  {
    var meter, turns, sent := PlainMeter(), MovingTurns(), [MovingTurns()[0], MovedTurn()];
    assert forall i :: 0 <= i < 3 ==> meter.tokens(sent[1][i]) <= meter.tokens(turns[1][i]);
    assert TurnNoGain(meter, turns[0], sent[0]);
    assert TurnNoGain(meter, turns[1], sent[1]);
  }

  lemma MovingSentTurns()
    ensures SentTurns(PlainCodec(), [{"2"}, {"3"}], MovingTurns()) == [MovingTurns()[0], MovedTurn()]
  {
    MovingSent();
  }

  /** Served requests choose the exempt results anew each turn, and a result read again exempts the new
      copy instead of the old one.  Then the old copy, in the cached prefix, changes form, and the bill
      grows although every message has at most its old tokens. */
  lemma MovingExemptionsCanCost()
    ensures var c, meter, p, turns := PlainCodec(), PlainMeter(), Pricing(0.1, 1.0), MovingTurns();
      var sent := SentTurns(c, [{"2"}, {"3"}], turns);
      && turns[0] <= turns[1] && HashFaithful(meter, turns) && NoGain(meter, turns, sent)
      && Bill(meter, p, turns, 2) == 1280.0 && Bill(meter, p, sent, 2) == 1540.0
  {
    MovingSentTurns();
    MovingNoGain();
    MovingBills();
    MovingFaithful();
  }
}
