/**
  Where the tokens of an append-only, perfectly cached run come from
  (benchmarks/why_rtk_wins.py: `step_prefixes`, `tok`, `reconstruct`, `impossible_cache`,
  `correct_fresh`, `usd`), over exact reals.
*/
module Attribution {

  /** The five kinds of content, by index. */
  const KINDS := 5

  const PROBLEM := 0
  const TOOL_RESULT := 1
  const TOOL_USE := 2
  const TEXT := 3
  const THINKING := 4

  /** Characters by kind. */
  type Counter = c: seq<nat> | |c| == 5 witness [0, 0, 0, 0, 0]

  const ZERO: Counter := [0, 0, 0, 0, 0]

  datatype Role = User | Assistant

  /** A content block by the lengths of what it holds; other blocks count nothing. */
  datatype Block =
    | ToolResult(length: nat)
    | ToolUse(length: nat)
    | Text(length: nat)
    | Thinking(signature: nat, thinking: nat)
    | Other

  datatype Content = Plain(length: nat) | Blocks(blocks: seq<Block>)

  datatype Message = Message(role: Role, content: Content)

  function Add(a: Counter, b: Counter): Counter {
    seq(KINDS, k requires 0 <= k < KINDS => a[k] + b[k])
  }

  /** Counter subtraction drops what would be negative. */
  function Minus(a: Counter, b: Counter): Counter {
    seq(KINDS, k requires 0 <= k < KINDS => if a[k] < b[k] then 0 else a[k] - b[k])
  }

  function Only(k: nat, n: nat): Counter
    requires k < KINDS
  {
    ZERO[k := n]
  }

  function TextKind(role: Role): nat {
    if role == User then PROBLEM else TEXT
  }

  function BlockCount(role: Role, b: Block): Counter {
    match b
    case ToolResult(n) => Only(TOOL_RESULT, n)
    case ToolUse(n) => Only(TOOL_USE, n)
    case Text(n) => Only(TextKind(role), n)
    case Thinking(s, t) => Only(THINKING, s + t)
    case Other => ZERO
  }

  function BlocksCount(role: Role, blocks: seq<Block>, n: nat): Counter
    requires n <= |blocks|
  {
    if n == 0 then ZERO else Add(BlocksCount(role, blocks, n - 1), BlockCount(role, blocks[n - 1]))
  }

  function BlockChars(m: Message): Counter {
    match m.content
    case Plain(n) => Only(TextKind(m.role), n)
    case Blocks(bs) => BlocksCount(m.role, bs, |bs|)
  }

  /** Characters by kind of the first n messages. */
  function Chars(msgs: seq<Message>, n: nat): Counter
    requires n <= |msgs|
  {
    if n == 0 then ZERO else Add(Chars(msgs, n - 1), BlockChars(msgs[n - 1]))
  }

  /** The message counts of the requests: one request before every assistant message. */
  function Cuts(msgs: seq<Message>, n: nat): (cuts: seq<nat>)
    requires n <= |msgs|
    ensures forall j :: 0 <= j < |cuts| ==> cuts[j] < n
    ensures forall i, j :: 0 <= i < j < |cuts| ==> cuts[i] < cuts[j]
  {
    if n == 0 then []
    else if msgs[n - 1].role == Assistant then Cuts(msgs, n - 1) + [n - 1]
    else Cuts(msgs, n - 1)
  }

  /** What is sent at each step, as characters by kind. */
  function Prefixes(msgs: seq<Message>): (pre: seq<Counter>)
    ensures |pre| == |Cuts(msgs, |msgs|)|
  {
    var cuts := Cuts(msgs, |msgs|);
    seq(|cuts|, j requires 0 <= j < |cuts| => Chars(msgs, cuts[j]))
  }

  method StepPrefixes(msgs: seq<Message>) returns (out: seq<Counter>)
    ensures out == Prefixes(msgs)
  {
    out := [];
    var acc: Counter := ZERO;
    for i := 0 to |msgs|
      invariant acc == Chars(msgs, i)
      invariant |out| == |Cuts(msgs, i)| && forall j :: 0 <= j < |out| ==> out[j] == Chars(msgs, Cuts(msgs, i)[j])
    {
      if msgs[i].role == Assistant {
        out := out + [acc];
      }
      acc := Add(acc, BlockChars(msgs[i]));
    }
  }

  lemma {:induction false} CharsGrow(msgs: seq<Message>, m: nat, n: nat, k: nat)
    requires m <= n <= |msgs| && k < KINDS
    ensures Chars(msgs, m)[k] <= Chars(msgs, n)[k]
  {
    if m == n {
    } else {
      CharsGrow(msgs, m, n - 1, k);
    }
  }

  predicate Growing(pre: seq<Counter>) {
    forall i, j, k :: 0 <= i < j < |pre| && 0 <= k < KINDS ==> pre[i][k] <= pre[j][k]
  }

  lemma PrefixesGrow(msgs: seq<Message>)
    ensures Growing(Prefixes(msgs))
  {
    var cuts := Cuts(msgs, |msgs|);
    forall i, j, k | 0 <= i < j < |cuts| && 0 <= k < KINDS ensures Prefixes(msgs)[i][k] <= Prefixes(msgs)[j][k] {
      CharsGrow(msgs, cuts[i], cuts[j], k);
    }
  }

  // ---------------------------------------------------------------- tokens

  /** Tokens per request (system prompt and tools) and per character of each kind. */
  datatype Coef = Coef(s: real, per: seq<real>)

  predicate ValidCoef(coef: Coef) {
    |coef.per| == KINDS
  }

  function Scaled(x: real, n: int): real {
    x * n as real
  }

  /** Weighted sum over the first n kinds. */
  function Weighted(per: seq<real>, c: Counter, n: nat): real
    requires n <= |per| == KINDS
  {
    if n == 0 then 0.0 else Weighted(per, c, n - 1) + Scaled(per[n - 1], c[n - 1])
  }

  function Tok(coef: Coef, c: Counter): real
    requires ValidCoef(coef)
  {
    coef.s + Weighted(coef.per, c, KINDS)
  }

  /** Tokens of the first n requests. */
  function SumTok(coef: Coef, pre: seq<Counter>, n: nat): real
    requires ValidCoef(coef) && n <= |pre|
  {
    if n == 0 then 0.0 else SumTok(coef, pre, n - 1) + Tok(coef, pre[n - 1])
  }

  function Sum(xs: seq<real>, n: nat): real
    requires n <= |xs|
  {
    if n == 0 then 0.0 else Sum(xs, n - 1) + xs[n - 1]
  }

  // ---------------------------------------------------------------- characters of one kind

  /** What request j adds of kind k. */
  function NewChars(pre: seq<Counter>, j: nat, k: nat): nat
    requires j < |pre| && k < KINDS
  {
    if j == 0 then pre[0][k] else Minus(pre[j], pre[j - 1])[k]
  }

  /** Characters of kind k in the first n requests together. */
  function Earlier(pre: seq<Counter>, k: nat, n: nat): nat
    requires n <= |pre| && k < KINDS
  {
    if n == 0 then 0 else Earlier(pre, k, n - 1) + pre[n - 1][k]
  }

  function WrittenChars(pre: seq<Counter>, k: nat, j: nat): nat
    requires j <= |pre| && k < KINDS
  {
    if j == 0 then 0 else WrittenChars(pre, k, j - 1) + NewChars(pre, j - 1, k)
  }

  /** Each character is read again at every later step. */
  function RereadChars(pre: seq<Counter>, k: nat, j: nat): int
    requires j <= |pre| && k < KINDS
  {
    if j == 0 then 0 else RereadChars(pre, k, j - 1) + NewChars(pre, j - 1, k) * (|pre| - j)
  }

  /** Abel summation: written once and read at every later step is the same as read at every step
      but the last. */
  lemma {:induction false} RereadIsEarlier(pre: seq<Counter>, k: nat, j: nat)
    requires 0 < j <= |pre| && k < KINDS && Growing(pre)
    ensures WrittenChars(pre, k, j) == pre[j - 1][k]
    ensures RereadChars(pre, k, j) == Earlier(pre, k, j - 1) + pre[j - 1][k] * (|pre| - j)
  {
    if j == 1 {
      assert WrittenChars(pre, k, 0) == 0 && RereadChars(pre, k, 0) == 0;
    } else {
      RereadIsEarlier(pre, k, j - 1);
      assert NewChars(pre, j - 1, k) == pre[j - 1][k] - pre[j - 2][k];
      AbelStep(pre[j - 2][k], pre[j - 1][k], |pre|, j);
    }
  }

  lemma AbelStep(p: int, q: int, n: int, j: int)
    ensures p * (n - (j - 1)) + (q - p) * (n - j) == p + q * (n - j)
  {
  }

  // ---------------------------------------------------------------- the attribution

  datatype Model = Model(predWrite: real, predRead: real, newByKind: seq<real>, newSystem: real,
                         rereadByKind: seq<real>, rereadSystem: real, steps: nat)

  /** After the first j requests: coefficient times characters, kind by kind. */
  ghost predicate Attributed(coef: Coef, pre: seq<Counter>, j: nat, written: seq<real>, reread: seq<real>)
    requires ValidCoef(coef) && j <= |pre|
  {
    |written| == |reread| == KINDS &&
    forall k :: 0 <= k < KINDS ==>
      && written[k] == Scaled(coef.per[k], WrittenChars(pre, k, j))
      && reread[k] == Scaled(coef.per[k], RereadChars(pre, k, j))
  }

  lemma ScaledAdds(x: real, a: int, b: int)
    ensures Scaled(x, a) + Scaled(x, b) == Scaled(x, a + b)
  {
    assert a as real + b as real == (a + b) as real;
  }

  lemma ScaledTwice(x: real, a: int, b: int)
    ensures Scaled(Scaled(x, a), b) == Scaled(x, a * b)
  {
    assert (a * b) as real == a as real * b as real;
  }

  /** One request: what it adds is written once and read again at each of the later steps. */
  method Attribute(coef: Coef, delta: Counter, later: nat, written: seq<real>, reread: seq<real>)
    returns (written': seq<real>, reread': seq<real>)
    requires ValidCoef(coef) && |written| == |reread| == KINDS
    ensures |written'| == |reread'| == KINDS
    ensures forall k :: 0 <= k < KINDS ==>
      && written'[k] == written[k] + Scaled(coef.per[k], delta[k])
      && reread'[k] == reread[k] + Scaled(Scaled(coef.per[k], delta[k]), later)
  {
    written', reread' := written, reread;
    for k := 0 to KINDS
      invariant |written'| == |reread'| == KINDS
      invariant forall i :: k <= i < KINDS ==> written'[i] == written[i] && reread'[i] == reread[i]
      invariant forall i :: 0 <= i < k ==>
        && written'[i] == written[i] + Scaled(coef.per[i], delta[i])
        && reread'[i] == reread[i] + Scaled(Scaled(coef.per[i], delta[i]), later)
    {
      var t := Scaled(coef.per[k], delta[k]);
      written' := written'[k := written'[k] + t];
      reread' := reread'[k := reread'[k] + Scaled(t, later)];
    }
  }

  lemma AttributedStep(coef: Coef, pre: seq<Counter>, j: nat, written: seq<real>, reread: seq<real>,
                       written': seq<real>, reread': seq<real>, delta: Counter)
    requires ValidCoef(coef) && j < |pre| && Attributed(coef, pre, j, written, reread)
    requires |written'| == |reread'| == KINDS
    requires forall k :: 0 <= k < KINDS ==>
      && delta[k] == NewChars(pre, j, k)
      && written'[k] == written[k] + Scaled(coef.per[k], delta[k])
      && reread'[k] == reread[k] + Scaled(Scaled(coef.per[k], delta[k]), |pre| - (j + 1))
    ensures Attributed(coef, pre, j + 1, written', reread')
  {
    forall k | 0 <= k < KINDS
      ensures written'[k] == Scaled(coef.per[k], WrittenChars(pre, k, j + 1))
      ensures reread'[k] == Scaled(coef.per[k], RereadChars(pre, k, j + 1))
    {
      var x, d, later := coef.per[k], NewChars(pre, j, k), |pre| - (j + 1);
      ScaledAdds(x, WrittenChars(pre, k, j), d);
      ScaledTwice(x, d, later);
      ScaledAdds(x, RereadChars(pre, k, j), d * later);
    }
  }

  // ---------------------------------------------------------------- totals over kinds

  function Earliers(pre: seq<Counter>, n: nat): Counter
    requires n <= |pre|
  {
    seq(KINDS, k requires 0 <= k < KINDS => Earlier(pre, k, n))
  }

  lemma {:induction false} WeightedAdds(per: seq<real>, a: Counter, b: Counter, n: nat)
    requires n <= |per| == KINDS
    ensures Weighted(per, Add(a, b), n) == Weighted(per, a, n) + Weighted(per, b, n)
  {
    if n == 0 {
    } else {
      WeightedAdds(per, a, b, n - 1);
      ScaledAdds(per[n - 1], a[n - 1], b[n - 1]);
    }
  }

  lemma {:induction false} WeightedZero(per: seq<real>, n: nat)
    requires n <= |per| == KINDS
    ensures Weighted(per, ZERO, n) == 0.0
  {
    if n == 0 {
    } else {
      WeightedZero(per, n - 1);
    }
  }

  /** Tokens of the first n requests, summed over kinds instead of over requests. */
  lemma {:induction false} SumTokByKind(coef: Coef, pre: seq<Counter>, n: nat)
    requires ValidCoef(coef) && n <= |pre|
    ensures SumTok(coef, pre, n) == Scaled(coef.s, n) + Weighted(coef.per, Earliers(pre, n), KINDS)
  {
    if n == 0 {
      assert Earliers(pre, 0) == ZERO;
      WeightedZero(coef.per, KINDS);
    } else {
      SumTokByKind(coef, pre, n - 1);
      assert Earliers(pre, n) == Add(Earliers(pre, n - 1), pre[n - 1]);
      WeightedAdds(coef.per, Earliers(pre, n - 1), pre[n - 1], KINDS);
      ScaledAdds(coef.s, n - 1, 1);
    }
  }

  lemma {:induction false} SumIsWeighted(per: seq<real>, xs: seq<real>, c: Counter, n: nat)
    requires n <= |per| == |xs| == KINDS
    requires forall k :: 0 <= k < KINDS ==> xs[k] == Scaled(per[k], c[k])
    ensures Sum(xs, n) == Weighted(per, c, n)
  {
    if n == 0 {
    } else {
      SumIsWeighted(per, xs, c, n - 1);
    }
  }

  /** After the last request the per-kind totals are those of the closed form. */
  lemma AttributedTotals(coef: Coef, pre: seq<Counter>, written: seq<real>, reread: seq<real>)
    requires ValidCoef(coef) && |pre| > 0 && Growing(pre) && Attributed(coef, pre, |pre|, written, reread)
    ensures var n := |pre|;
      && Sum(written, KINDS) + coef.s == Tok(coef, pre[n - 1])
      && Sum(reread, KINDS) + Scaled(coef.s, n - 1) == SumTok(coef, pre, n - 1)
      && forall k :: 0 <= k < KINDS ==>
           written[k] == Scaled(coef.per[k], pre[n - 1][k]) && reread[k] == Scaled(coef.per[k], Earlier(pre, k, n - 1))
  {
    var n := |pre|;
    forall k | 0 <= k < KINDS
      ensures WrittenChars(pre, k, n) == pre[n - 1][k] && RereadChars(pre, k, n) == Earliers(pre, n - 1)[k]
    {
      RereadIsEarlier(pre, k, n);
    }
    SumIsWeighted(coef.per, written, pre[n - 1], KINDS);
    SumIsWeighted(coef.per, reread, Earliers(pre, n - 1), KINDS);
    SumTokByKind(coef, pre, n - 1);
  }

  method AttributeAll(pre: seq<Counter>, coef: Coef)
    returns (written: seq<real>, reread: seq<real>, newSystem: real, rereadSystem: real)
    requires ValidCoef(coef) && Growing(pre)
    ensures Attributed(coef, pre, |pre|, written, reread)
    ensures newSystem == if pre == [] then 0.0 else coef.s
    ensures rereadSystem == if pre == [] then 0.0 else Scaled(coef.s, |pre| - 1)
  {
    written, reread := [0.0, 0.0, 0.0, 0.0, 0.0], [0.0, 0.0, 0.0, 0.0, 0.0];
    newSystem, rereadSystem := 0.0, 0.0;
    for j := 0 to |pre|
      invariant Attributed(coef, pre, j, written, reread)
      invariant newSystem == if j == 0 then 0.0 else coef.s
      invariant rereadSystem == if j == 0 then 0.0 else Scaled(coef.s, |pre| - 1)
    {
      var delta := Minus(pre[j], if j == 0 then ZERO else pre[j - 1]);
      var later := |pre| - 1 - j;
      ghost var w, r := written, reread;
      written, reread := Attribute(coef, delta, later, written, reread);
      AttributedStep(coef, pre, j, w, r, written, reread, delta);
      if j == 0 {
        newSystem, rereadSystem := newSystem + coef.s, rereadSystem + Scaled(coef.s, later);
      }
    }
  }

  method SumRequests(pre: seq<Counter>, coef: Coef, n: nat) returns (sum: real)
    requires ValidCoef(coef) && n <= |pre|
    ensures sum == SumTok(coef, pre, n)
  {
    sum := 0.0;
    for j := 0 to n
      invariant sum == SumTok(coef, pre, j)
    {
      sum := sum + Tok(coef, pre[j]);
    }
  }

  /** The attribution conserves the bill: per kind, what was written and what was re-read add up to
      the predicted write and read tokens, for every transcript. */
  method Reconstruct(msgs: seq<Message>, coef: Coef) returns (m: Model)
    requires ValidCoef(coef)
    ensures var pre := Prefixes(msgs);
      && m.steps == |pre| && |m.newByKind| == |m.rereadByKind| == KINDS
      && m.predWrite == PredWrite(coef, pre) && m.predRead == PredRead(coef, pre)
      && (|pre| > 0 ==> forall k :: 0 <= k < KINDS ==>
            && m.newByKind[k] == Scaled(coef.per[k], pre[|pre| - 1][k])
            && m.rereadByKind[k] == Scaled(coef.per[k], Earlier(pre, k, |pre| - 1)))
    ensures Sum(m.newByKind, KINDS) + m.newSystem == m.predWrite
    ensures Sum(m.rereadByKind, KINDS) + m.rereadSystem == m.predRead
  {
    var pre := StepPrefixes(msgs);
    PrefixesGrow(msgs);
    var written, reread, newSystem, rereadSystem := AttributeAll(pre, coef);
    if pre == [] {
      SumIsWeighted(coef.per, written, ZERO, KINDS);
      SumIsWeighted(coef.per, reread, ZERO, KINDS);
      WeightedZero(coef.per, KINDS);
      return Model(0.0, 0.0, written, newSystem, reread, rereadSystem, 0);
    }
    AttributedTotals(coef, pre, written, reread);
    var read := SumRequests(pre, coef, |pre| - 1);
    m := Model(Tok(coef, pre[|pre| - 1]), read, written, newSystem, reread, rereadSystem, |pre|);
  }

  function PredWrite(coef: Coef, pre: seq<Counter>): real
    requires ValidCoef(coef)
  {
    if pre == [] then 0.0 else Tok(coef, pre[|pre| - 1])
  }

  function PredRead(coef: Coef, pre: seq<Counter>): real
    requires ValidCoef(coef)
  {
    if pre == [] then 0.0 else SumTok(coef, pre, |pre| - 1)
  }

  // ---------------------------------------------------------------- usage

  datatype Usage = Usage(input: real, output: real, cacheWrite: real, cacheRead: real)

  const PRICE_IN := 2.0
  const PRICE_OUT := 10.0
  const WRITE_MULT := 1.25
  const READ_MULT := 0.1

  /** The four components of the bill added up. */
  function Usd(u: Usage): real {
    u.input * PRICE_IN / 1000000.0 + WRITE_MULT * u.cacheWrite * PRICE_IN / 1000000.0
    + READ_MULT * u.cacheRead * PRICE_IN / 1000000.0 + u.output * PRICE_OUT / 1000000.0
  }

  function Prompt(u: Usage): real {
    u.input + u.cacheWrite + u.cacheRead
  }

  /** The provider served more prompt from its cache than this run can have written. */
  predicate ImpossibleCache(u: Usage, steps: nat) {
    steps > 1 && u.cacheWrite + u.input < u.cacheRead / (steps - 1) as real
  }

  predicate NonNegative(coef: Coef) {
    ValidCoef(coef) && coef.s >= 0.0 && forall k :: 0 <= k < KINDS ==> coef.per[k] >= 0.0
  }

  lemma ScaledMonotone(x: real, a: int, b: int)
    requires x >= 0.0 && a <= b
    ensures Scaled(x, a) <= Scaled(x, b)
  {
    ScaledAdds(x, a, b - a);
    assert x * (b - a) as real >= 0.0;
  }

  lemma {:induction false} WeightedMonotone(per: seq<real>, a: Counter, b: Counter, n: nat)
    requires n <= |per| == KINDS
    requires forall k :: 0 <= k < KINDS ==> per[k] >= 0.0 && a[k] <= b[k]
    ensures Weighted(per, a, n) <= Weighted(per, b, n)
  {
    if n == 0 {
    } else {
      WeightedMonotone(per, a, b, n - 1);
      ScaledMonotone(per[n - 1], a[n - 1], b[n - 1]);
    }
  }

  lemma {:induction false} EarlierBounded(coef: Coef, pre: seq<Counter>, n: nat)
    requires NonNegative(coef) && Growing(pre) && n < |pre|
    ensures SumTok(coef, pre, n) <= Scaled(Tok(coef, pre[|pre| - 1]), n)
  {
    if n == 0 {
    } else {
      EarlierBounded(coef, pre, n - 1);
      WeightedMonotone(coef.per, pre[n - 1], pre[|pre| - 1], KINDS);
      ScaledAdds(Tok(coef, pre[|pre| - 1]), n - 1, 1);
    }
  }

  lemma DivideBound(x: real, y: real, n: nat)
    requires n > 0 && y <= Scaled(x, n)
    ensures y / n as real <= x
  {
    assert x * n as real / n as real == x;
  }

  /** A run whose usage is what the append-only model predicts never looks like one that read a
      foreign cache entry. */
  lemma ModelNeverImpossible(coef: Coef, msgs: seq<Message>, u: Usage)
    requires NonNegative(coef)
    requires u.cacheWrite + u.input == PredWrite(coef, Prefixes(msgs)) && u.cacheRead == PredRead(coef, Prefixes(msgs))
    ensures !ImpossibleCache(u, |Prefixes(msgs)|)
  {
    var pre := Prefixes(msgs);
    if |pre| > 1 {
      PrefixesGrow(msgs);
      EarlierBounded(coef, pre, |pre| - 1);
      DivideBound(u.cacheWrite + u.input, u.cacheRead, |pre| - 1);
    }
  }

  function Min(a: real, b: real): real {
    if a <= b then a else b
  }

  function Max(a: real, b: real): real {
    if a >= b then a else b
  }

  /** The same prompt re-priced as if it had started on a cold cache. */
  function CorrectFresh(u: Usage, predWrite: real): Usage {
    var w := Min(Max(predWrite, u.cacheWrite + u.input), Prompt(u));
    Usage(u.input, u.output, w - u.input, Prompt(u) - w)
  }

  /** Re-pricing keeps input, output and the prompt total, keeps every component non-negative, only
      moves tokens from read to write, up to the prediction where there are enough of them, and never
      lowers the cost. */
  lemma CorrectFreshConserves(u: Usage, predWrite: real)
    requires u.input >= 0.0 && u.cacheWrite >= 0.0 && u.cacheRead >= 0.0
    ensures var v := CorrectFresh(u, predWrite);
      && v.input == u.input && v.output == u.output && Prompt(v) == Prompt(u)
      && v.cacheWrite >= u.cacheWrite && 0.0 <= v.cacheRead <= u.cacheRead
      && (u.cacheWrite + u.input <= predWrite <= Prompt(u) ==> v.cacheWrite + v.input == predWrite)
      && Usd(v) - Usd(u) == (v.cacheWrite - u.cacheWrite) * (WRITE_MULT - READ_MULT) * PRICE_IN / 1000000.0
      && Usd(v) >= Usd(u)
      && CorrectFresh(v, predWrite) == v
  {
  }
}
