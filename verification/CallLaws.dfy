/**
  What the call scanner finds, from first principles (distil/artifacts.py, `_CALL_HEAD` and
  `_call_spans`): names, quotes, escapes and parens, counted and compared position by position.
*/
module CallLaws {
  import opened Wrappers
  import opened CallScanner
  import opened Counting
  import opened TranscriptCalls

  // ---------------------------------------------------------------- live characters

  /** The character at k is outside quotes and not escaped, and is neither a backslash nor a quote. */
  ghost predicate Counts(text: string, from: nat, k: nat) {
    && from <= k < |text| && BackslashRun(text, from, k) % 2 == 0
    && (forall o, q :: from <= o < k ==> !QuotedSince(text, from, o, k, q))
    && text[k] != '\\' && text[k] != '"' && text[k] != '\''
  }

  lemma LiveIff(text: string, from: nat, k: nat)
    requires from <= k < |text|
    ensures Live(text, from, k) <==> Counts(text, from, k)
  {
    EscapedIffOddBackslashes(text, from, k);
    var quote := StateAt(text, from, k).quote;
    if quote.Some? {
      QuotedIff(text, from, k, quote.value);
      var o :| from <= o < k && QuotedSince(text, from, o, k, quote.value);
      assert !Counts(text, from, k);
    } else {
      forall o, q | from <= o < k ensures !QuotedSince(text, from, o, k, q) {
        QuotedIff(text, from, k, q);
      }
    }
  }

  /** The live occurrences of a character in text[from..k]. */
  ghost function LiveOnes(text: string, ch: char, from: nat, k: nat): set<nat> {
    Positions((q: nat) => Counts(text, from, q) && text[q] == ch, from, k)
  }

  lemma LiveOnesGrow(text: string, ch: char, from: nat, k: nat)
    requires from <= k < |text|
    ensures |LiveOnes(text, ch, from, k + 1)| ==
            |LiveOnes(text, ch, from, k)| + if Live(text, from, k) && text[k] == ch then 1 else 0
  {
    LiveIff(text, from, k);
    PositionsGrow((q: nat) => Counts(text, from, q) && text[q] == ch, from, k);
  }

  lemma NoLiveOnes(text: string, ch: char, from: nat)
    ensures LiveOnes(text, ch, from, from) == {}
  {
  }

  /** Inside a call's parens the depth is one more than live opening parens exceed live closing ones. */
  lemma {:induction false} DepthCounts(text: string, from: nat, k: nat)
    requires from <= k <= |text|
    ensures DepthAt(text, from, k) == 1 + |LiveOnes(text, '(', from, k)| - |LiveOnes(text, ')', from, k)|
  {
    if k == from {
      NoLiveOnes(text, '(', from);
      NoLiveOnes(text, ')', from);
    } else {
      DepthCounts(text, from, k - 1);
      LiveOnesGrow(text, '(', from, k - 1);
      LiveOnesGrow(text, ')', from, k - 1);
    }
  }

  /** The live positions of text[from..k]. */
  ghost function LiveAll(text: string, from: nat, k: nat): set<nat> {
    Positions((q: nat) => Counts(text, from, q), from, k)
  }

  lemma LiveAllGrow(text: string, from: nat, k: nat)
    requires from <= k < |text|
    ensures |LiveAll(text, from, k + 1)| == |LiveAll(text, from, k)| + if Live(text, from, k) then 1 else 0
  {
    LiveIff(text, from, k);
    PositionsGrow((q: nat) => Counts(text, from, q), from, k);
  }

  /** The collected text is the live characters in order: one for each, at its rank. */
  ghost predicate Collects(text: string, from: nat, k: nat, bare: string) {
    |bare| == |LiveAll(text, from, k)| &&
    forall q: nat :: from <= q < k && Counts(text, from, q) ==> HasRank(text, from, q, bare)
  }

  ghost predicate HasRank(text: string, from: nat, q: nat, bare: string) {
    var r := |LiveAll(text, from, q)|;
    r < |bare| && q < |text| && bare[r] == text[q]
  }

  lemma {:induction false} BareCollects(text: string, from: nat, k: nat)
    requires from <= k <= |text|
    ensures Collects(text, from, k, Bare(text, from, k))
  {
    if k == from {
      assert LiveAll(text, from, from) == {};
    } else {
      var before, after := Bare(text, from, k - 1), Bare(text, from, k);
      BareCollects(text, from, k - 1);
      LiveAllGrow(text, from, k - 1);
      LiveIff(text, from, k - 1);
      assert before <= after;
      forall q: nat | from <= q < k && Counts(text, from, q) ensures HasRank(text, from, q, after) {
        if q < k - 1 {
          assert HasRank(text, from, q, before);
        }
      }
    }
  }

  // ---------------------------------------------------------------- heads and ends

  /** A name from s to n, white space from n to the paren at p, and nothing else in between. */
  ghost predicate IsName(l: Lexicon, text: string, s: nat, n: nat, p: nat) {
    && s < n <= p < |text| && text[p] == '(' && l.invocation(text[s..n])
    && (forall i :: s <= i < n ==> l.word(text[i])) && (s > 0 ==> !l.word(text[s - 1]))
    && (forall i :: n <= i < p ==> l.space(text[i]))
  }

  lemma NameIff(l: Lexicon, text: string, s: nat, p: nat)
    requires Sensible(l)
    ensures IsHead(l, text, p) && s == NameStart(l, text, p) <==> exists n :: IsName(l, text, s, n, p)
  {
    if IsHead(l, text, p) && s == NameStart(l, text, p) {
      assert IsName(l, text, s, NameEnd(l, text, p), p);
    }
    if n :| IsName(l, text, s, n, p) {
      assert l.word(text[n - 1]) && !l.space(text[n - 1]);
      assert NameEnd(l, text, p) == n;
      assert NameStart(l, text, p) == s;
    }
  }

  /** e is the first point from which on the parens opened since p are all closed, that at p included. */
  ghost predicate Balances(text: string, from: nat, e: nat) {
    && from < e <= |text|
    && |LiveOnes(text, ')', from, e)| == |LiveOnes(text, '(', from, e)| + 1
    && forall k :: from <= k < e ==> Inside(text, from, k)
  }

  ghost predicate Inside(text: string, from: nat, k: nat) {
    |LiveOnes(text, ')', from, k)| <= |LiveOnes(text, '(', from, k)|
  }

  lemma BalancesIff(text: string, from: nat, e: nat)
    ensures Closes(text, from, e) <==> Balances(text, from, e)
  {
    if from < e <= |text| {
      DepthCounts(text, from, e);
      forall k | from <= k < e ensures DepthAt(text, from, k) > 0 <==> Inside(text, from, k) {
        DepthCounts(text, from, k);
      }
    }
  }

  /** A recognised name, its paren at p, the matching paren just before e, and no outcome field among the
      live characters between. */
  ghost predicate IsInvocation(l: Lexicon, text: string, p: nat, s: nat, e: nat) {
    && (exists n :: IsName(l, text, s, n, p)) && Balances(text, p + 1, e)
    && exists bare :: Collects(text, p + 1, e, bare) && !l.outcomeField(bare)
  }

  /** What is collected is determined. */
  lemma CollectsUnique(text: string, from: nat, k: nat, a: string)
    requires from <= k <= |text| && Collects(text, from, k, a)
    ensures a == Bare(text, from, k)
  {
    var b := Bare(text, from, k);
    BareCollects(text, from, k);
    forall r | 0 <= r < |a| ensures a[r] == b[r] {
      var q := RankTaken(text, from, k, r);
      assert HasRank(text, from, q, a) && HasRank(text, from, q, b);
    }
  }

  /** Every rank is that of some live position. */
  lemma {:induction false} RankTaken(text: string, from: nat, k: nat, r: nat) returns (q: nat)
    requires from <= k <= |text| && r < |LiveAll(text, from, k)|
    ensures from <= q < k && Counts(text, from, q) && |LiveAll(text, from, q)| == r
  {
    NoneLive(text, from);
    LiveAllGrow(text, from, k - 1);
    LiveIff(text, from, k - 1);
    if r < |LiveAll(text, from, k - 1)| {
      q := RankTaken(text, from, k - 1, r);
    } else {
      q := k - 1;
    }
  }

  lemma NoneLive(text: string, from: nat)
    ensures |LiveAll(text, from, from)| == 0
  {
    assert LiveAll(text, from, from) == {};
  }

  lemma InvocationIff(l: Lexicon, text: string, p: nat, s: nat, e: nat)
    requires Sensible(l)
    ensures IsCall(l, text, p, s, e) <==> IsInvocation(l, text, p, s, e)
  {
    NameIff(l, text, s, p);
    BalancesIff(text, p + 1, e);
    if Closes(text, p + 1, e) {
      BareCollects(text, p + 1, e);
      if bare :| Collects(text, p + 1, e, bare) && !l.outcomeField(bare) {
        CollectsUnique(text, p + 1, e, bare);
      }
    }
  }

  /** For every text: the listed spans are exactly the recognised invocations. */
  lemma SpansAreInvocations(l: Lexicon, text: string, spans: seq<(nat, nat)>, s: nat, e: nat)
    requires Sensible(l) && Lists(l, text, spans)
    ensures (s, e) in spans <==> exists p: nat :: IsInvocation(l, text, p, s, e)
  {
    if (s, e) in spans {
      var p: nat :| p < |text| && IsCall(l, text, p, s, e);
      InvocationIff(l, text, p, s, e);
    }
    if p: nat :| IsInvocation(l, text, p, s, e) {
      InvocationIff(l, text, p, s, e);
      assert CallBefore(l, text, |text|, s, e);
    }
  }

  // ---------------------------------------------------------------- nested parens

  /** Three plain pieces, the first ended by an opening paren and the others by closing ones. */
  predicate IsNested(text: string, from: nat, x: string, y: string, z: string) {
    && Plain(x) && Plain(y) && Plain(z) && from + |x| + |y| + |z| + 3 <= |text|
    && At(text, from, x) && text[from + |x|] == '('
    && At(text, from + |x| + 1, y) && text[from + |x| + 1 + |y|] == ')'
    && At(text, from + |x| + |y| + 2, z) && text[from + |x| + |y| + 2 + |z|] == ')'
  }

  /** Where the scanner stands after each of the three parens. */
  lemma NestedStages(text: string, from: nat, x: string, y: string, z: string)
    requires IsNested(text, from, x, y, z)
    ensures var o, c, e := from + |x| + 1, from + |x| + |y| + 2, from + |x| + |y| + |z| + 3;
      && Stands(text, from, o, 2, x + "(") && Stands(text, from, c, 1, x + "(" + y + ")")
      && Stands(text, from, e, 0, x + "(" + y + ")" + z + ")")
  {
    PieceThenParen(text, from, from, 1, "", x);
    assert "" + x + "(" == x + "(";
    PieceThenParen(text, from, from + |x| + 1, 2, x + "(", y);
    PieceThenParen(text, from, from + |x| + |y| + 2, 1, x + "(" + y + ")", z);
  }

  /** At k the scanner is outside quotes, at the depth, and has collected the text. */
  predicate Stands(text: string, from: nat, k: nat, depth: int, bare: string) {
    && from <= k <= |text| && StateAt(text, from, k) == Lexing(None, false)
    && DepthAt(text, from, k) == depth && Bare(text, from, k) == bare
  }

  /** A plain piece and a paren after it. */
  lemma PieceThenParen(text: string, from: nat, k: nat, depth: int, bare: string, s: string)
    requires Stands(text, from, k, depth, bare) && k + |s| < |text| && At(text, k, s) && Plain(s)
    requires text[k + |s|] == '(' || text[k + |s|] == ')'
    ensures var n := k + |s|;
      Stands(text, from, n + 1, depth + (if text[n] == '(' then 1 else -1), bare + s + [text[n]])
  {
    PlainPiece(text, from, k, s);
    LiveParen(text, from, k + |s|);
  }

  lemma PieceInside(text: string, from: nat, k: nat, depth: int, bare: string, s: string, m: nat)
    requires Stands(text, from, k, depth, bare) && At(text, k, s) && Plain(s) && k <= m <= k + |s|
    ensures DepthAt(text, from, m) == depth
  {
    PlainPiece(text, from, k, s);
  }

  lemma NestedInside(text: string, from: nat, x: string, y: string, z: string, m: nat)
    requires IsNested(text, from, x, y, z) && from <= m < from + |x| + |y| + |z| + 3
    ensures DepthAt(text, from, m) > 0
  {
    NestedStages(text, from, x, y, z);
    if m <= from + |x| {
      PieceInside(text, from, from, 1, "", x, m);
    } else if m <= from + |x| + 1 + |y| {
      PieceInside(text, from, from + |x| + 1, 2, x + "(", y, m);
    } else {
      PieceInside(text, from, from + |x| + |y| + 2, 1, x + "(" + y + ")", z, m);
    }
  }

  /** A call whose argument has a paren pair of its own ends at its own paren, not at the inner one. */
  lemma NestedParens(l: Lexicon, text: string, p: nat, x: string, y: string, z: string)
    requires IsHead(l, text, p) && IsNested(text, p + 1, x, y, z) && !l.outcomeField(x + "(" + y + ")" + z + ")")
    ensures IsCall(l, text, p, NameStart(l, text, p), p + |x| + |y| + |z| + 4)
  {
    var from, e := p + 1, p + |x| + |y| + |z| + 4;
    NestedStages(text, from, x, y, z);
    forall k | from <= k < e ensures DepthAt(text, from, k) > 0 {
      NestedInside(text, from, x, y, z, k);
    }
  }

  /** A live paren moves the depth and is collected. */
  lemma LiveParen(text: string, from: nat, k: nat)
    requires from <= k < |text| && StateAt(text, from, k) == Lexing(None, false) && (text[k] == '(' || text[k] == ')')
    ensures StateAt(text, from, k + 1) == Lexing(None, false)
    ensures DepthAt(text, from, k + 1) == DepthAt(text, from, k) + if text[k] == '(' then 1 else -1
    ensures Bare(text, from, k + 1) == Bare(text, from, k) + [text[k]]
  {
  }

  /** Knows bash, and nothing else that the text below uses. */
  ghost predicate KnowsBash(l: Lexicon) {
    && Sensible(l) && l.invocation("bash") && !l.invocation("f")
    && l.word('b') && l.word('a') && l.word('s') && l.word('h') && l.word('f')
    && !l.outcomeField("f(x))")
  }

  lemma BashIsCall(l: Lexicon)
    requires KnowsBash(l)
    ensures IsCall(l, "bash(f(x))", 4, 0, 10)
  {
    BashLayout();
    BashHead(l);
    NestedParens(l, "bash(f(x))", 4, "f", "x", "");
  }

  lemma BashLayout()
    ensures IsNested("bash(f(x))", 5, "f", "x", "") && "f" + "(" + "x" + ")" + "" + ")" == "f(x))"
  {
  }

  lemma BashHead(l: Lexicon)
    requires KnowsBash(l)
    ensures IsHead(l, "bash(f(x))", 4) && NameStart(l, "bash(f(x))", 4) == 0
  {
    HeadAt(l, "bash(f(x))", 0, "bash");
  }

  lemma InnerIsNoHead(l: Lexicon)
    requires KnowsBash(l)
    ensures !IsHead(l, "bash(f(x))", 6)
  {
    var text := "bash(f(x))";
    assert text[5] == 'f' && !l.space(text[5]) && !l.word(text[4]);
    assert NameEnd(l, text, 6) == 6 && NameStart(l, text, 6) == 5;
    assert text[5..6] == "f";
  }

  /** In this text the one span is the whole text. */
  lemma NestedCallIsWhole(l: Lexicon, spans: seq<(nat, nat)>)
    requires KnowsBash(l) && Lists(l, "bash(f(x))", spans)
    ensures spans == [(0, 10)]
  {
    var text := "bash(f(x))";
    BashIsCall(l);
    InnerIsNoHead(l);
    forall k | 0 <= k < |spans| ensures spans[k] == (0, 10) {
      OneCallOnly(l, spans, k);
    }
    assert CallBefore(l, text, |text|, 0, 10);
    assert (0, 10) in spans;
    AllOneSpan(spans, (0, 10));
  }

  lemma OneCallOnly(l: Lexicon, spans: seq<(nat, nat)>, k: nat)
    requires KnowsBash(l) && Lists(l, "bash(f(x))", spans) && k < |spans|
    ensures spans[k] == (0, 10)
  {
    var text := "bash(f(x))";
    var (s, e) := spans[k];
    BashIsCall(l);
    InnerIsNoHead(l);
    assert (s, e) in spans;
    var p: nat :| p < |text| && IsCall(l, text, p, s, e);
    assert p == 4;
    OneSpan(l, text, 4, s, e, 0, 10);
  }

  lemma AllOneSpan(spans: seq<(nat, nat)>, x: (nat, nat))
    requires StartsInOrder(spans) && x in spans && forall k :: 0 <= k < |spans| ==> spans[k] == x
    ensures spans == [x]
  {
    var first, last := spans[0], spans[|spans| - 1];
  }
}
