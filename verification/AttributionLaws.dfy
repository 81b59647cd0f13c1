/**
  What the attribution counts and prices, kind by kind (benchmarks/why_rtk_wins.py: `block_chars`,
  `step_prefixes`, `tok`, `usd`, `impossible_cache`, `correct_fresh`).
*/
module AttributionLaws {
  import opened Attribution

  // ---------------------------------------------------------------- characters

  /** The characters of the kind in a block: the problem is what the user says in texts, text what the
      assistant says in them. */
  function CharsIn(role: Role, b: Block, k: nat): nat {
    match b
    case ToolResult(n) => if k == 1 then n else 0
    case ToolUse(n) => if k == 2 then n else 0
    case Text(n) => if k == (if role == User then 0 else 3) then n else 0
    case Thinking(s, t) => if k == 4 then s + t else 0
    case Other => 0
  }

  function SumIn(role: Role, blocks: seq<Block>, k: nat, n: nat): nat
    requires n <= |blocks|
  {
    if n == 0 then 0 else SumIn(role, blocks, k, n - 1) + CharsIn(role, blocks[n - 1], k)
  }

  function CharsOf(m: Message, k: nat): nat {
    match m.content
    case Plain(n) => CharsIn(m.role, Text(n), k)
    case Blocks(bs) => SumIn(m.role, bs, k, |bs|)
  }

  function SumOf(msgs: seq<Message>, k: nat, n: nat): nat
    requires n <= |msgs|
  {
    if n == 0 then 0 else SumOf(msgs, k, n - 1) + CharsOf(msgs[n - 1], k)
  }

  lemma BlockCountIs(role: Role, b: Block, k: nat)
    requires k < 5
    ensures BlockCount(role, b)[k] == CharsIn(role, b, k)
  {
  }

  lemma {:induction false} BlocksCountIs(role: Role, blocks: seq<Block>, n: nat, k: nat)
    requires n <= |blocks| && k < 5
    ensures BlocksCount(role, blocks, n)[k] == SumIn(role, blocks, k, n)
  {
    if n == 0 {
    } else {
      BlocksCountIs(role, blocks, n - 1, k);
      BlockCountIs(role, blocks[n - 1], k);
    }
  }

  lemma MessageCharsAre(m: Message, k: nat)
    requires k < 5
    ensures BlockChars(m)[k] == CharsOf(m, k)
  {
    match m.content
    case Plain(n) => BlockCountIs(m.role, Text(n), k);
    case Blocks(bs) => BlocksCountIs(m.role, bs, |bs|, k);
  }

  lemma {:induction false} CharsAre(msgs: seq<Message>, n: nat, k: nat)
    requires n <= |msgs| && k < 5
    ensures Chars(msgs, n)[k] == SumOf(msgs, k, n)
  {
    if n == 0 {
    } else {
      CharsAre(msgs, n - 1, k);
      MessageCharsAre(msgs[n - 1], k);
    }
  }

  lemma {:induction false} CutsAre(msgs: seq<Message>, n: nat, i: nat)
    requires n <= |msgs|
    ensures i in Cuts(msgs, n) <==> i < n && msgs[i].role == Assistant
  {
    if n == 0 {
    } else {
      CutsAre(msgs, n - 1, i);
    }
  }

  /** Request j sends what the first i messages contain. */
  predicate SendsBefore(msgs: seq<Message>, j: nat, i: nat) {
    j < |Prefixes(msgs)| && i <= |msgs| && forall k :: 0 <= k < 5 ==> Prefixes(msgs)[j][k] == SumOf(msgs, k, i)
  }

  /** For every transcript: there is one request before each assistant message, in order, and it sends of
      each kind what all messages before contain of it. */
  lemma RequestsAre(msgs: seq<Message>, i: nat)
    requires i < |msgs| && msgs[i].role == Assistant
    ensures exists j :: 0 <= j < |Prefixes(msgs)| && Cuts(msgs, |msgs|)[j] == i && SendsBefore(msgs, j, i)
  {
    CutsAre(msgs, |msgs|, i);
    var j :| 0 <= j < |Cuts(msgs, |msgs|)| && Cuts(msgs, |msgs|)[j] == i;
    forall k | 0 <= k < 5 ensures Prefixes(msgs)[j][k] == SumOf(msgs, k, i) {
      CharsAre(msgs, i, k);
    }
  }

  // ---------------------------------------------------------------- tokens and dollars

  /** Tokens of a request: the system prompt, and characters at the rate of their kind. */
  lemma TokensAre(coef: Coef, c: Counter)
    requires ValidCoef(coef)
    ensures Tok(coef, c) == coef.s + coef.per[0] * c[0] as real + coef.per[1] * c[1] as real
      + coef.per[2] * c[2] as real + coef.per[3] * c[3] as real + coef.per[4] * c[4] as real
  {
    var per := coef.per;
    assert Weighted(per, c, 1) == Weighted(per, c, 0) + Scaled(per[0], c[0]);
    assert Weighted(per, c, 2) == Weighted(per, c, 1) + Scaled(per[1], c[1]);
    assert Weighted(per, c, 3) == Weighted(per, c, 2) + Scaled(per[2], c[2]);
    assert Weighted(per, c, 4) == Weighted(per, c, 3) + Scaled(per[3], c[3]);
    assert Weighted(per, c, 5) == Weighted(per, c, 4) + Scaled(per[4], c[4]);
  }

  /** A million tokens cost 2 dollars as input, 2.50 written to the cache, 0.20 read from it, and 10 as
      output. */
  lemma DollarsAre(u: Usage)
    ensures Usd(u) * 1000000.0 == 2.0 * u.input + 2.5 * u.cacheWrite + 0.2 * u.cacheRead + 10.0 * u.output
  {
  }

  /** Impossible: over the steps after the first, more was read on average than was ever sent anew. */
  lemma ImpossibleIff(u: Usage, steps: nat)
    ensures ImpossibleCache(u, steps) <==> steps > 1 && (u.cacheWrite + u.input) * (steps - 1) as real < u.cacheRead
  {
    if steps > 1 {
      DivideIff(u.cacheRead, u.cacheWrite + u.input, steps - 1);
    }
  }

  lemma DivideIff(x: real, y: real, n: nat)
    requires n > 0
    ensures y < x / n as real <==> y * n as real < x
  {
    assert x / n as real * n as real == x;
  }

  /** Re-pricing: a prediction below what was written changes nothing, one above the prompt leaves
      nothing to read, and one in between is written. */
  lemma CorrectFreshCases(u: Usage, predWrite: real)
    requires u.input >= 0.0 && u.cacheWrite >= 0.0 && u.cacheRead >= 0.0
    ensures predWrite <= u.cacheWrite + u.input ==> CorrectFresh(u, predWrite) == u
    ensures predWrite >= u.input + u.cacheWrite + u.cacheRead ==>
      CorrectFresh(u, predWrite) == Usage(u.input, u.output, u.cacheWrite + u.cacheRead, 0.0)
    ensures u.cacheWrite + u.input <= predWrite <= u.input + u.cacheWrite + u.cacheRead ==>
      CorrectFresh(u, predWrite) ==
      Usage(u.input, u.output, predWrite - u.input, u.input + u.cacheWrite + u.cacheRead - predWrite)
  {
  }
}
