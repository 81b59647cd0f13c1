/**
  Finding the spans of recognised tool calls `Name(...)` in raw transcript text
  (distil/artifacts.py, `_call_spans`): a character loop that tracks paren depth, quotes and
  backslash escapes.
*/
module CallScanner {
  import opened Wrappers

  /** The character classes and word lists of the two regular expressions involved. */
  datatype Lexicon = Lexicon(
    word: char -> bool,
    space: char -> bool,
    invocation: string -> bool,    // is this name one of the recognised heads, whatever its case
    outcomeField: string -> bool)  // does this argument text contain the name of an outcome field

  ghost predicate Sensible(l: Lexicon) {
    !l.word('(') && !l.space('(') && forall ch :: l.word(ch) ==> !l.space(ch)
  }

  // ---------------------------------------------------------------- heads

  function BackWhile(f: char -> bool, text: string, p: nat): (q: nat)
    requires p <= |text|
    ensures q <= p
    ensures forall i :: q <= i < p ==> f(text[i])
    ensures q > 0 ==> !f(text[q - 1])
  {
    if p > 0 && f(text[p - 1]) then BackWhile(f, text, p - 1) else p
  }

  /** Where the name that an opening paren at p completes starts and ends: a maximal run of word
      characters, then optional white space, then the paren. */
  function NameStart(l: Lexicon, text: string, p: nat): (s: nat)
    requires p < |text|
    ensures s <= NameEnd(l, text, p)
  {
    BackWhile(l.word, text, NameEnd(l, text, p))
  }

  function NameEnd(l: Lexicon, text: string, p: nat): (e: nat)
    requires p < |text|
    ensures e <= p
  {
    BackWhile(l.space, text, p)
  }

  /** The paren at p opens a recognised call. */
  predicate IsHead(l: Lexicon, text: string, p: nat) {
    p < |text| && text[p] == '(' && NameStart(l, text, p) < NameEnd(l, text, p)
    && l.invocation(text[NameStart(l, text, p)..NameEnd(l, text, p)])
  }

  // ---------------------------------------------------------------- the lexical state

  datatype Lexing = Lexing(quote: Option<char>, esc: bool)

  function Next(s: Lexing, ch: char): Lexing {
    if s.esc then s.(esc := false)
    else if ch == '\\' then s.(esc := true)
    else if s.quote.Some? then (if ch == s.quote.value then s.(quote := None) else s)
    else if ch == '"' || ch == '\'' then s.(quote := Some(ch))
    else s
  }

  /** The state after reading text[from..k]. */
  function StateAt(text: string, from: nat, k: nat): Lexing
    requires from <= k <= |text|
  {
    if k == from then Lexing(None, false) else Next(StateAt(text, from, k - 1), text[k - 1])
  }

  /** The character at k is outside quotes, not escaped, and itself neither a quote nor a backslash. */
  predicate Live(text: string, from: nat, k: nat)
    requires from <= k < |text|
  {
    StateAt(text, from, k) == Lexing(None, false) && text[k] !in ['\\', '"', '\'']
  }

  /** Paren depth after text[from..k], counting live parens only and starting inside one. */
  function DepthAt(text: string, from: nat, k: nat): int
    requires from <= k <= |text|
  {
    if k == from then 1
    else DepthAt(text, from, k - 1) +
         if !Live(text, from, k - 1) then 0
         else if text[k - 1] == '(' then 1
         else if text[k - 1] == ')' then -1
         else 0
  }

  /** The live characters of text[from..k]. */
  function Bare(text: string, from: nat, k: nat): string
    requires from <= k <= |text|
  {
    if k == from then ""
    else if Live(text, from, k - 1) then Bare(text, from, k - 1) + [text[k - 1]]
    else Bare(text, from, k - 1)
  }

  /** e is the first point at which the depth reaches zero. */
  predicate Closes(text: string, from: nat, e: nat) {
    from < e <= |text| && DepthAt(text, from, e) == 0 && forall k :: from <= k < e ==> DepthAt(text, from, k) > 0
  }

  /** (s, e) is the span of the call whose paren is at p. */
  predicate IsCall(l: Lexicon, text: string, p: nat, s: nat, e: nat) {
    IsHead(l, text, p) && s == NameStart(l, text, p) && Closes(text, p + 1, e)
    && !l.outcomeField(Bare(text, p + 1, e))
  }

  // ---------------------------------------------------------------- the loops

  /** Scan one call's arguments; returns where the loop stops, the depth there, and the live text. */
  method ScanArguments(text: string, from: nat) returns (i: nat, depth: int, bare: string)
    requires from <= |text|
    ensures from <= i <= |text| && bare == Bare(text, from, i) && depth == DepthAt(text, from, i)
    ensures if depth == 0 then Closes(text, from, i)
            else i == |text| && forall k :: from <= k <= |text| ==> DepthAt(text, from, k) > 0
  {
    var quote: Option<char> := None;
    var esc := false;
    i, depth, bare := from, 1, "";
    while i < |text| && depth != 0
      invariant from <= i <= |text|
      invariant Lexing(quote, esc) == StateAt(text, from, i)
      invariant depth == DepthAt(text, from, i) && bare == Bare(text, from, i)
      invariant forall k :: from <= k < i ==> DepthAt(text, from, k) > 0
      invariant depth >= 0
    {
      var ch := text[i];
      if esc {
        esc := false;
      } else if ch == '\\' {
        esc := true;
      } else if quote.Some? {
        if ch == quote.value {
          quote := None;
        }
      } else if ch == '"' || ch == '\'' {
        quote := Some(ch);
      } else {
        if ch == '(' {
          depth := depth + 1;
        } else if ch == ')' {
          depth := depth - 1;
        }
        bare := bare + [ch];
      }
      i := i + 1;
    }
  }

  lemma CloseUnique(text: string, from: nat, e1: nat, e2: nat)
    requires Closes(text, from, e1) && Closes(text, from, e2)
    ensures e1 == e2
  {
  }

  /** A later head starts after every earlier paren. */
  lemma HeadsInOrder(l: Lexicon, text: string, p: nat, q: nat)
    requires Sensible(l) && p < q && IsHead(l, text, p) && IsHead(l, text, q)
    ensures NameStart(l, text, p) < p < NameStart(l, text, q)
  {
    assert !l.word(text[p]) && !l.space(text[p]);
  }

  /** (s, e) spans a call whose paren is before n. */
  ghost predicate CallBefore(l: Lexicon, text: string, n: nat, s: nat, e: nat) {
    exists p: nat :: p < n && IsCall(l, text, p, s, e)
  }

  predicate StartsInOrder(spans: seq<(nat, nat)>) {
    forall i, j :: 0 <= i < j < |spans| ==> spans[i].0 < spans[j].0
  }

  /** The spans of the calls whose paren is before n, ordered by start. */
  ghost predicate SpansUpTo(l: Lexicon, text: string, n: nat, spans: seq<(nat, nat)>) {
    && (forall s: nat, e: nat :: (s, e) in spans <==> CallBefore(l, text, n, s, e))
    && StartsInOrder(spans)
  }

  /** One more paren, which opens no call: not a head, never closed, or naming an outcome field. */
  lemma NoCallAt(l: Lexicon, text: string, p: nat, spans: seq<(nat, nat)>)
    requires SpansUpTo(l, text, p, spans) && forall s: nat, e: nat :: !IsCall(l, text, p, s, e)
    ensures SpansUpTo(l, text, p + 1, spans)
  {
    forall s: nat, e: nat ensures CallBefore(l, text, p + 1, s, e) <==> CallBefore(l, text, p, s, e) {
      if CallBefore(l, text, p, s, e) {
        var q: nat :| q < p && IsCall(l, text, q, s, e);
        assert q < p + 1 && IsCall(l, text, q, s, e);
      }
    }
  }

  /** One more paren, which opens a call closed at e. */
  lemma CallAt(l: Lexicon, text: string, p: nat, spans: seq<(nat, nat)>, e: nat)
    requires Sensible(l) && p < |text| && SpansUpTo(l, text, p, spans) && IsCall(l, text, p, NameStart(l, text, p), e)
    ensures SpansUpTo(l, text, p + 1, spans + [(NameStart(l, text, p), e)])
  {
    var start := NameStart(l, text, p);
    forall i | 0 <= i < |spans| ensures spans[i].0 < start {
      var (s, x) := spans[i];
      assert (s, x) in spans;
      var q: nat :| q < p && IsCall(l, text, q, s, x);
      HeadsInOrder(l, text, q, p);
    }
    forall s: nat, x: nat
      ensures (s, x) in spans + [(start, e)] <==> CallBefore(l, text, p + 1, s, x)
    {
      OneMoreCall(l, text, p, e, s, x);
    }
  }

  lemma OneMoreCall(l: Lexicon, text: string, p: nat, e: nat, s: nat, x: nat)
    requires p < |text| && IsCall(l, text, p, NameStart(l, text, p), e)
    ensures CallBefore(l, text, p + 1, s, x) <==> CallBefore(l, text, p, s, x) || (s, x) == (NameStart(l, text, p), e)
  {
    if CallBefore(l, text, p, s, x) {
      var q: nat :| q < p && IsCall(l, text, q, s, x);
      assert q < p + 1 && IsCall(l, text, q, s, x);
    }
    if IsCall(l, text, p, s, x) {
      CloseUnique(text, p + 1, e, x);
    }
  }

  lemma CallInBounds(l: Lexicon, text: string, p: nat, s: nat, e: nat)
    requires IsCall(l, text, p, s, e)
    ensures s < p < e <= |text|
  {
  }

  lemma OutcomeFieldIsNoCall(l: Lexicon, text: string, p: nat, i: nat, s: nat, e: nat)
    requires p < |text| && Closes(text, p + 1, i) && l.outcomeField(Bare(text, p + 1, i))
    ensures !IsCall(l, text, p, s, e)
  {
    if p + 1 < e && Closes(text, p + 1, e) {
      CloseUnique(text, p + 1, i, e);
    }
  }

  /** The spans of all calls of the text, ordered by start. */
  ghost predicate Lists(l: Lexicon, text: string, spans: seq<(nat, nat)>) {
    SpansUpTo(l, text, |text|, spans)
  }

  predicate SpansWithin(spans: seq<(nat, nat)>, length: nat) {
    forall k :: 0 <= k < |spans| ==> spans[k].0 < spans[k].1 <= length
  }

  lemma ListedWithin(l: Lexicon, text: string, spans: seq<(nat, nat)>)
    requires Lists(l, text, spans)
    ensures SpansWithin(spans, |text|) && StartsInOrder(spans)
  {
    forall k | 0 <= k < |spans| ensures spans[k].0 < spans[k].1 <= |text| {
      var (s, e) := spans[k];
      assert (s, e) in spans;
      var p: nat :| p < |text| && IsCall(l, text, p, s, e);
      CallInBounds(l, text, p, s, e);
    }
  }

  /** Exactly the recognised calls that close and name no outcome field, ordered by start. */
  method CallSpans(l: Lexicon, text: string) returns (spans: seq<(nat, nat)>)
    requires Sensible(l)
    ensures Lists(l, text, spans)
    ensures forall s: nat, e: nat :: (s, e) in spans ==> s < e <= |text| && exists p: nat :: IsCall(l, text, p, s, e)
    ensures forall p: nat, s: nat, e: nat :: IsCall(l, text, p, s, e) ==> (s, e) in spans
    ensures forall i, j :: 0 <= i < j < |spans| ==> spans[i].0 < spans[j].0
  {
    spans := [];
    for p := 0 to |text|
      invariant SpansUpTo(l, text, p, spans)
    {
      if !IsHead(l, text, p) {
        NoCallAt(l, text, p, spans);
        continue;
      }
      var i, depth, bare := ScanArguments(text, p + 1);
      if depth == 0 && !l.outcomeField(bare) {
        CallAt(l, text, p, spans, i);
        spans := spans + [(NameStart(l, text, p), i)];
      } else {
        forall s: nat, e: nat ensures !IsCall(l, text, p, s, e) {
          if depth == 0 {
            OutcomeFieldIsNoCall(l, text, p, i, s, e);
          }
        }
        NoCallAt(l, text, p, spans);
      }
    }
    forall p: nat, s: nat, e: nat | IsCall(l, text, p, s, e) ensures (s, e) in spans && s < e <= |text| {
      CallInBounds(l, text, p, s, e);
    }
  }

  // ---------------------------------------------------------------- what the scanner state means

  /** Number of consecutive backslashes just before k, counted back to from. */
  function BackslashRun(text: string, from: nat, k: nat): nat
    requires from <= k <= |text|
  {
    if k == from || text[k - 1] != '\\' then 0 else 1 + BackslashRun(text, from, k - 1)
  }

  /** A character is escaped iff an odd number of backslashes precedes it, inside quotes or not. */
  lemma {:induction false} EscapedIffOddBackslashes(text: string, from: nat, k: nat)
    requires from <= k <= |text|
    ensures StateAt(text, from, k).esc <==> BackslashRun(text, from, k) % 2 == 1
  {
    if k == from {
    } else {
      EscapedIffOddBackslashes(text, from, k - 1);
    }
  }

  /** o opens a quote q that is still open at k: an unescaped q outside quotes, and no unescaped q since. */
  predicate QuotedSince(text: string, from: nat, o: nat, k: nat, q: char)
    requires from <= o < k <= |text|
  {
    && (q == '"' || q == '\'')
    && text[o] == q && StateAt(text, from, o) == Lexing(None, false)
    && forall i :: o < i < k ==> !(text[i] == q && !StateAt(text, from, i).esc)
  }

  /** The scanner is inside a quote exactly between an unescaped opening quote and the next unescaped
      quote of the same kind. */
  lemma {:induction false} QuotedIff(text: string, from: nat, k: nat, q: char)
    requires from <= k <= |text|
    ensures StateAt(text, from, k).quote == Some(q) <==> exists o :: from <= o < k && QuotedSince(text, from, o, k, q)
  {
    if k == from {
    } else {
      QuotedIff(text, from, k - 1, q);
      if StateAt(text, from, k).quote == Some(q) {
        if StateAt(text, from, k - 1).quote == Some(q) {
          var o :| from <= o < k - 1 && QuotedSince(text, from, o, k - 1, q);
          assert QuotedSince(text, from, o, k, q);
        } else {
          assert QuotedSince(text, from, k - 1, k, q);
        }
      }
      if o :| from <= o < k && QuotedSince(text, from, o, k, q) {
        if o < k - 1 {
          assert QuotedSince(text, from, o, k - 1, q);
        }
      }
    }
  }

  // ---------------------------------------------------------------- appending text

  lemma {:induction false} BackWhilePrefix(f: char -> bool, a: string, b: string, p: nat)
    requires p <= |a| && a <= b
    ensures BackWhile(f, a, p) == BackWhile(f, b, p)
  {
    if p > 0 && f(a[p - 1]) {
      BackWhilePrefix(f, a, b, p - 1);
    }
  }

  lemma HeadPrefix(l: Lexicon, a: string, b: string, p: nat)
    requires p < |a| && a <= b
    ensures IsHead(l, a, p) <==> IsHead(l, b, p)
    ensures NameStart(l, a, p) == NameStart(l, b, p)
  {
    BackWhilePrefix(l.space, a, b, p);
    BackWhilePrefix(l.word, a, b, NameEnd(l, a, p));
    assert a[NameStart(l, a, p)..NameEnd(l, a, p)] == b[NameStart(l, a, p)..NameEnd(l, a, p)];
  }

  lemma {:induction false} LexingPrefix(a: string, b: string, from: nat, k: nat)
    requires from <= k <= |a| && a <= b
    ensures StateAt(a, from, k) == StateAt(b, from, k)
    ensures DepthAt(a, from, k) == DepthAt(b, from, k)
    ensures Bare(a, from, k) == Bare(b, from, k)
  {
    if k == from {
    } else {
      LexingPrefix(a, b, from, k - 1);
    }
  }

  lemma ClosesPrefix(a: string, b: string, from: nat, e: nat)
    requires e <= |a| && a <= b
    ensures Closes(a, from, e) <==> Closes(b, from, e)
  {
    if from < e {
      forall k | from <= k <= e ensures DepthAt(a, from, k) == DepthAt(b, from, k) {
        LexingPrefix(a, b, from, k);
      }
    }
  }

  /** Appending text neither removes, moves nor adds a call that closes within the original text. */
  lemma AppendKeepsCalls(l: Lexicon, a: string, b: string, p: nat, s: nat, e: nat)
    requires a <= b && e <= |a|
    ensures IsCall(l, a, p, s, e) <==> IsCall(l, b, p, s, e)
  {
    if p + 1 < e {
      HeadPrefix(l, a, b, p);
      ClosesPrefix(a, b, p + 1, e);
      LexingPrefix(a, b, p + 1, e);
    }
  }
}
