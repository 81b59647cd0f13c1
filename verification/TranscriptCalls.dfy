/**
  Windows over the calls the scanner finds in a text, and two texts that show where the boundaries
  of calls put the evidence in the wrong place (distil/artifacts.py, `_call_spans` and `extract_ops`).
*/
module TranscriptCalls {
  import opened Wrappers
  import opened CallScanner
  import opened OpWindows

  // ---------------------------------------------------------------- every text

  /** In every text, two windows are identical or disjoint unless one operation trespasses on the
      other, and a window is empty only at the end. */
  lemma WindowsOfText(l: Lexicon, text: string, spans: seq<(nat, nat)>, ops: seq<Found>, i: nat, j: nat)
    requires Lists(l, text, spans) && SortedByPos(ops) && forall k :: 0 <= k < |ops| ==> ops[k].pos <= |text|
    requires i < |ops| && j < |ops|
    ensures var bi, ei := Boundary(ops[i], spans), WindowEnd(ops, i, spans, |text|);
      var bj, ej := Boundary(ops[j], spans), WindowEnd(ops, j, spans, |text|);
      && bi <= ei <= |text| && (bi == ei <==> bi == |text|)
      && (IdenticalOrDisjoint(bi, ei, bj, ej) <==>
          !Trespasses(ops, j, i, spans, |text|) && !Trespasses(ops, i, j, spans, |text|))
  {
    ListedWithin(l, text, spans);
    WindowEmptyIff(ops, i, spans, |text|);
    WindowsIdenticalOrDisjointIff(ops, i, j, spans, |text|);
  }

  /** In every text, a call gives all operations inside it one boundary exactly when it does not run
      on past the call that the scan finds around its start. */
  lemma CallsOfTextShareBoundariesIff(l: Lexicon, text: string, spans: seq<(nat, nat)>, k: nat)
    requires Lists(l, text, spans) && k < |spans|
    ensures (forall p: nat, q: nat :: InCall(spans, k, p, q) ==> OutcomeStart(p, spans) == OutcomeStart(q, spans))
            <==> !Overruns(spans, k)
  {
    ListedWithin(l, text, spans);
    SameCallSameBoundaryIff(spans, |text|, k);
  }

  // ---------------------------------------------------------------- reading pieces of a text

  /** s stands at p in the text. */
  predicate At(text: string, p: nat, s: string) {
    p + |s| <= |text| && forall i :: 0 <= i < |s| ==> text[p + i] == s[i]
  }

  lemma AtSum(text: string, p: nat, s: string, t: string)
    requires At(text, p, s + t)
    ensures At(text, p, s) && At(text, p + |s|, t)
  {
    forall i | 0 <= i < |s| ensures text[p + i] == s[i] {
      assert (s + t)[i] == s[i];
    }
    forall i | 0 <= i < |t| ensures text[p + |s| + i] == t[i] {
      assert (s + t)[|s| + i] == t[i];
    }
  }

  predicate Plain(s: string) {
    forall i :: 0 <= i < |s| ==> s[i] !in ['"', '\'', '\\', '(', ')']
  }

  /** Outside quotes plain characters are collected and change nothing else. */
  lemma {:induction false} ReadsPlain(text: string, from: nat, k: nat, s: string, n: nat)
    requires from <= k && At(text, k, s) && n <= |s| && Plain(s)
    requires StateAt(text, from, k) == Lexing(None, false)
    ensures StateAt(text, from, k + n) == Lexing(None, false)
    ensures DepthAt(text, from, k + n) == DepthAt(text, from, k)
    ensures Bare(text, from, k + n) == Bare(text, from, k) + s[..n]
  {
    if n == 0 {
    } else {
      ReadsPlain(text, from, k, s, n - 1);
      assert text[k + n - 1] == s[n - 1] && s[..n] == s[..n - 1] + [s[n - 1]];
      assert Live(text, from, k + n - 1);
    }
  }

  predicate Quotable(s: string) {
    forall i :: 0 <= i < |s| ==> s[i] != '"' && s[i] != '\\'
  }

  /** Inside double quotes anything but a double quote or a backslash is passed over. */
  lemma {:induction false} ReadsQuoted(text: string, from: nat, k: nat, s: string, n: nat)
    requires from <= k && At(text, k, s) && n <= |s| && Quotable(s)
    requires StateAt(text, from, k) == Lexing(Some('"'), false)
    ensures StateAt(text, from, k + n) == Lexing(Some('"'), false)
    ensures DepthAt(text, from, k + n) == DepthAt(text, from, k) && Bare(text, from, k + n) == Bare(text, from, k)
  {
    if n == 0 {
    } else {
      ReadsQuoted(text, from, k, s, n - 1);
      assert text[k + n - 1] == s[n - 1];
    }
  }

  /** A plain piece leaves the depth alone throughout. */
  lemma PlainPiece(text: string, from: nat, k: nat, s: string)
    requires from <= k && At(text, k, s) && Plain(s) && StateAt(text, from, k) == Lexing(None, false)
    ensures StateAt(text, from, k + |s|) == Lexing(None, false) && Bare(text, from, k + |s|) == Bare(text, from, k) + s
    ensures forall m :: k <= m <= k + |s| ==> DepthAt(text, from, m) == DepthAt(text, from, k)
  {
    ReadsPlain(text, from, k, s, |s|);
    assert s[..|s|] == s;
    forall m | k <= m <= k + |s| ensures DepthAt(text, from, m) == DepthAt(text, from, k) {
      ReadsPlain(text, from, k, s, m - k);
    }
  }

  /** So does a piece in double quotes, which adds nothing to the live text. */
  lemma QuotedPiece(text: string, from: nat, k: nat, s: string)
    requires from <= k && k + |s| + 2 <= |text| && text[k] == text[k + |s| + 1] == '"'
    requires At(text, k + 1, s) && Quotable(s)
    requires StateAt(text, from, k) == Lexing(None, false)
    ensures StateAt(text, from, k + |s| + 2) == Lexing(None, false)
    ensures Bare(text, from, k + |s| + 2) == Bare(text, from, k)
    ensures forall m :: k <= m <= k + |s| + 2 ==> DepthAt(text, from, m) == DepthAt(text, from, k)
  {
    assert StateAt(text, from, k + 1) == Lexing(Some('"'), false);
    assert DepthAt(text, from, k + 1) == DepthAt(text, from, k) && Bare(text, from, k + 1) == Bare(text, from, k);
    ReadsQuoted(text, from, k + 1, s, |s|);
    forall m | k < m <= k + |s| + 1 ensures DepthAt(text, from, m) == DepthAt(text, from, k) {
      ReadsQuoted(text, from, k + 1, s, m - k - 1);
    }
  }

  /** A call whose arguments are plain text followed by one quoted piece. */
  lemma OneQuotedArgument(l: Lexicon, text: string, p: nat, x: string, y: string)
    requires IsHead(l, text, p) && Plain(x) && Quotable(y) && !l.outcomeField(x + ")")
    requires p + |x| + |y| + 4 <= |text| && At(text, p + 1, x) && At(text, p + 2 + |x|, y)
    requires text[p + 1 + |x|] == text[p + 2 + |x| + |y|] == '"' && text[p + 3 + |x| + |y|] == ')'
    ensures IsCall(l, text, p, NameStart(l, text, p), p + |x| + |y| + 4)
  {
    var from, a, c := p + 1, p + 1 + |x|, p + 3 + |x| + |y|;
    PlainPiece(text, from, from, x);
    QuotedPiece(text, from, a, y);
    assert Live(text, from, c);
    assert DepthAt(text, from, c + 1) == 0;
    assert Bare(text, from, c) == "" + x == x;
    assert Bare(text, from, c + 1) == x + [text[c]] == x + ")";
    forall k | from <= k < c + 1 ensures DepthAt(text, from, k) > 0 {
      assert k <= a || a <= k <= a + |y| + 2;
    }
  }

  /** A name directly before a paren, with no word character before it, makes a head. */
  lemma HeadAt(l: Lexicon, text: string, s: nat, name: string)
    requires Sensible(l) && l.invocation(name) && name != "" && forall ch :: ch in name ==> l.word(ch)
    requires At(text, s, name) && s + |name| < |text| && text[s + |name|] == '(' && (s > 0 ==> !l.word(text[s - 1]))
    ensures IsHead(l, text, s + |name|) && NameStart(l, text, s + |name|) == s
  {
    var p := s + |name|;
    forall i | s <= i < p ensures l.word(text[i]) {
      assert text[s + (i - s)] == name[i - s];
    }
    assert !l.space(text[p - 1]);
    assert NameEnd(l, text, p) == p;
    assert NameStart(l, text, p) == s;
    assert text[s..p] == name by {
      assert forall i :: 0 <= i < |name| ==> text[s..p][i] == text[s + i] == name[i];
    }
  }

  /** The only two calls of a text with two parens. */
  lemma TwoCalls(l: Lexicon, text: string, spans: seq<(nat, nat)>, p: nat, s: nat, e: nat, q: nat, r: nat, f: nat)
    requires Lists(l, text, spans) && IsCall(l, text, p, s, e) && IsCall(l, text, q, r, f) && s < r
    requires forall i :: 0 <= i < |text| && text[i] == '(' ==> i == p || i == q
    ensures spans == [(s, e), (r, f)]
  {
    forall k | 0 <= k < |spans| ensures spans[k] == (s, e) || spans[k] == (r, f) {
      OneOfTwo(l, text, spans, k, p, s, e, q, r, f);
    }
    assert CallBefore(l, text, |text|, s, e) && CallBefore(l, text, |text|, r, f);
    assert (s, e) in spans && (r, f) in spans;
    var i, j :| 0 <= i < |spans| && 0 <= j < |spans| && spans[i] == (s, e) && spans[j] == (r, f);
    TwoInOrder(spans, i, j);
  }

  lemma TwoInOrder(spans: seq<(nat, nat)>, i: nat, j: nat)
    requires StartsInOrder(spans) && i < |spans| && j < |spans| && spans[i].0 < spans[j].0
    requires forall k :: 0 <= k < |spans| ==> spans[k] == spans[i] || spans[k] == spans[j]
    ensures i == 0 && j == 1 && |spans| == 2
  {
    var first, next, last := spans[0], spans[i + 1], spans[|spans| - 1];
  }

  lemma OneOfTwo(l: Lexicon, text: string, spans: seq<(nat, nat)>, k: nat,
                 p: nat, s: nat, e: nat, q: nat, r: nat, f: nat)
    requires Lists(l, text, spans) && k < |spans| && IsCall(l, text, p, s, e) && IsCall(l, text, q, r, f)
    requires forall i :: 0 <= i < |text| && text[i] == '(' ==> i == p || i == q
    ensures spans[k] == (s, e) || spans[k] == (r, f)
  {
    var (x, y) := spans[k];
    assert (x, y) in spans;
    var i: nat :| i < |text| && IsCall(l, text, i, x, y);
    if i == p {
      OneSpan(l, text, p, x, y, s, e);
    } else {
      OneSpan(l, text, q, x, y, r, f);
    }
  }

  lemma OneSpan(l: Lexicon, text: string, p: nat, s: nat, e: nat, r: nat, f: nat)
    requires IsCall(l, text, p, s, e) && IsCall(l, text, p, r, f)
    ensures s == r && e == f
  {
    CloseUnique(text, p + 1, e, f);
  }

  // ---------------------------------------------------------------- adjoining calls

  function WriteCall(path: string): string {
    Joined(["Write", "(", "file_path=", "\"", path, "\")"], 6)
  }

  const DENIED: string := " Permission denied"

  function TwoWrites(a: string, gap: string, b: string): string {
    Joined([WriteCall(a), gap, WriteCall(b), DENIED], 4)
  }

  /** Knows the call the texts use and no outcome field in it. */
  ghost predicate KnowsWrite(l: Lexicon) {
    && Sensible(l) && l.invocation("Write") && !l.outcomeField("file_path=)")
    && l.word('W') && l.word('r') && l.word('i') && l.word('t') && l.word('e') && !l.word(')')
  }

  lemma AtPart(text: string, p: nat, s: string, q: nat, r: string)
    requires At(text, p, s) && At(s, q, r)
    ensures At(text, p + q, r)
  {
    forall i | 0 <= i < |r| ensures text[p + q + i] == r[i] {
      assert text[p + (q + i)] == s[q + i];
    }
  }

  /** A part stands where the parts before it end. */
  lemma {:induction false} JoinedAt(parts: seq<string>, k: nat, n: nat)
    requires k < n <= |parts|
    ensures At(Joined(parts, n), |Joined(parts, k)|, parts[k])
  {
    if k == n - 1 {
      var before := Joined(parts, k);
      forall i | 0 <= i < |parts[k]| ensures Joined(parts, n)[|before| + i] == parts[k][i] {
      }
    } else {
      JoinedAt(parts, k, n - 1);
    }
  }

  lemma WriteCallParts(path: string)
    ensures var w := WriteCall(path);
      && |w| == 19 + |path| && At(w, 0, "Write") && At(w, 5, "(") && At(w, 6, "file_path=") && At(w, 16, "\"")
      && At(w, 17, path) && At(w, 17 + |path|, "\")")
  {
    var parts := ["Write", "(", "file_path=", "\"", path, "\")"];
    assert |Joined(parts, 0)| == 0;
    assert |Joined(parts, 1)| == 5;
    assert |Joined(parts, 2)| == 6;
    assert |Joined(parts, 3)| == 16;
    assert |Joined(parts, 4)| == 17;
    assert |Joined(parts, 5)| == 17 + |path|;
    JoinedAt(parts, 0, 6);
    JoinedAt(parts, 1, 6);
    JoinedAt(parts, 2, 6);
    JoinedAt(parts, 3, 6);
    JoinedAt(parts, 4, 6);
    JoinedAt(parts, 5, 6);
  }

  lemma WriteParts(text: string, at: nat, path: string)
    requires At(text, at, WriteCall(path))
    ensures At(text, at, "Write") && At(text, at + 6, "file_path=") && At(text, at + 17, path)
    ensures at + 19 + |path| <= |text| && text[at + 5] == '(' && text[at + 16] == text[at + 17 + |path|] == '"'
    ensures text[at + 18 + |path|] == ')'
  {
    var w := WriteCall(path);
    WriteCallParts(path);
    AtPart(text, at, w, 0, "Write");
    AtPart(text, at, w, 5, "(");
    AtPart(text, at, w, 6, "file_path=");
    AtPart(text, at, w, 16, "\"");
    AtPart(text, at, w, 17, path);
    AtPart(text, at, w, 17 + |path|, "\")");
    assert text[at + 5 + 0] == "("[0] && text[at + 16 + 0] == "\""[0];
    assert text[at + 17 + |path| + 0] == "\")"[0] && text[at + 17 + |path| + 1] == "\")"[1];
  }

  lemma WriteIsCall(l: Lexicon, text: string, at: nat, path: string)
    requires KnowsWrite(l) && Plain(path) && At(text, at, WriteCall(path)) && (at > 0 ==> !l.word(text[at - 1]))
    ensures IsCall(l, text, at + 5, at, at + 19 + |path|)
  {
    WriteParts(text, at, path);
    HeadAt(l, text, at, "Write");
    assert "file_path=" + ")" == "file_path=)";
    OneQuotedArgument(l, text, at + 5, "file_path=", path);
  }

  /** The one paren of a write call. */
  lemma WriteParen(text: string, at: nat, path: string, i: nat)
    requires Plain(path) && At(text, at, WriteCall(path)) && at <= i < at + 19 + |path|
    ensures i != at + 5 ==> i < |text| && text[i] != '('
  {
    WriteParts(text, at, path);
    if i < at + 5 {
      assert text[at + (i - at)] == "Write"[i - at];
    } else if at + 6 <= i < at + 16 {
      assert text[at + 6 + (i - at - 6)] == "file_path="[i - at - 6];
    } else if at + 17 <= i < at + 17 + |path| {
      assert text[at + 17 + (i - at - 17)] == path[i - at - 17];
    }
  }

  /** The text consists of a write, a gap, another write and the refusal. */
  predicate IsTwoWrites(text: string, a: string, gap: string, b: string) {
    var m := 19 + |a| + |gap|;
    && At(text, 0, WriteCall(a)) && At(text, 19 + |a|, gap)
    && At(text, m, WriteCall(b)) && At(text, m + 19 + |b|, DENIED)
    && |text| == m + 19 + |b| + |DENIED|
  }

  lemma TwoWritesParts(a: string, gap: string, b: string)
    ensures IsTwoWrites(TwoWrites(a, gap, b), a, gap, b)
  {
    var parts := [WriteCall(a), gap, WriteCall(b), DENIED];
    WriteCallParts(a);
    WriteCallParts(b);
    assert |Joined(parts, 0)| == 0;
    assert |Joined(parts, 1)| == 19 + |a|;
    assert |Joined(parts, 2)| == 19 + |a| + |gap|;
    assert |Joined(parts, 3)| == 38 + |a| + |gap| + |b|;
    JoinedAt(parts, 0, 4);
    JoinedAt(parts, 1, 4);
    JoinedAt(parts, 2, 4);
    JoinedAt(parts, 3, 4);
  }

  predicate Blank(gap: string) {
    forall i :: 0 <= i < |gap| ==> gap[i] == ' ' || gap[i] == '\n'
  }

  /** Where the parens of two writes are. */
  lemma TwoWritesParen(text: string, a: string, gap: string, b: string, i: nat)
    requires IsTwoWrites(text, a, gap, b) && Plain(a) && Plain(b) && Blank(gap) && i < |text|
    ensures text[i] == '(' ==> i == 5 || i == 24 + |a| + |gap|
  {
    var m := 19 + |a| + |gap|;
    if i < 19 + |a| {
      WriteParen(text, 0, a, i);
    } else if i < m {
      assert text[19 + |a| + (i - 19 - |a|)] == gap[i - 19 - |a|];
    } else if i < m + 19 + |b| {
      WriteParen(text, m, b, i);
    } else {
      assert text[m + 19 + |b| + (i - m - 19 - |b|)] == DENIED[i - m - 19 - |b|];
    }
  }

  lemma BlankBefore(l: Lexicon, text: string, at: nat, gap: string)
    requires !l.word(' ') && !l.word('\n') && !l.word(')') && Blank(gap)
    requires 0 < at <= |text| && text[at - 1] == ')' && At(text, at, gap)
    ensures !l.word(text[at + |gap| - 1])
  {
    if gap != [] {
      assert text[at + (|gap| - 1)] == gap[|gap| - 1];
    }
  }

  lemma TwoWritesCalls(l: Lexicon, text: string, a: string, gap: string, b: string)
    requires KnowsWrite(l) && !l.word(' ') && !l.word('\n')
    requires IsTwoWrites(text, a, gap, b) && Plain(a) && Plain(b) && Blank(gap)
    ensures var m := 19 + |a| + |gap|; IsCall(l, text, 5, 0, 19 + |a|) && IsCall(l, text, m + 5, m, m + 19 + |b|)
  {
    WriteIsCall(l, text, 0, a);
    assert !l.word(text[19 + |a| + |gap| - 1]) by {
      WriteParts(text, 0, a);
      BlankBefore(l, text, 19 + |a|, gap);
    }
    WriteIsCall(l, text, 19 + |a| + |gap|, b);
  }

  lemma TwoWritesSpans(l: Lexicon, text: string, a: string, gap: string, b: string, spans: seq<(nat, nat)>)
    requires KnowsWrite(l) && !l.word(' ') && !l.word('\n')
    requires IsTwoWrites(text, a, gap, b) && Plain(a) && Plain(b) && Blank(gap) && Lists(l, text, spans)
    ensures var m := 19 + |a| + |gap|; spans == [(0, 19 + |a|), (m, m + 19 + |b|)]
  {
    var m := 19 + |a| + |gap|;
    TwoWritesCalls(l, text, a, gap, b);
    forall i | 0 <= i < |text| && text[i] == '(' ensures i == 5 || i == m + 5 {
      TwoWritesParen(text, a, gap, b, i);
    }
    TwoCalls(l, text, spans, 5, 0, 19 + |a|, m + 5, m, m + 19 + |b|);
  }

  predicate TwoSpans(spans: seq<(nat, nat)>, s: nat, e: nat, r: nat, f: nat) {
    |spans| == 2 && spans[0] == (s, e) && spans[1] == (r, f)
  }

  /** The text's only failure marker is the one at its end. */
  ghost predicate FailsAtEnd(length: nat, marker: nat, failed: (nat, nat) -> bool) {
    forall lo: nat, hi: nat :: lo <= hi <= length ==> (failed(lo, hi) <==> lo + marker <= length && hi == length)
  }

  /** Two writes, the second of which fails.  If nothing stands between them the first one is dropped
      for it; a single blank between them is enough to keep the first. */
  lemma AdjoiningCallIsBlamed(l: Lexicon, a: string, gap: string, b: string, t: Text, f: Found, g: Found)
    requires KnowsWrite(l) && !l.word(' ') && !l.word('\n') && Plain(a) && Plain(b) && Blank(gap)
    requires t.length == |TwoWrites(a, gap, b)| && Lists(l, TwoWrites(a, gap, b), t.spans)
    requires FailsAtEnd(t.length, |DENIED| - 1, t.failed)
    requires f.pos == 0 && g.pos == 19 + |a| + |gap|
    ensures Kept(t, [f, g], 2) == if gap == "" then [] else [(f.path, f.op)]
  {
    var e, m := 19 + |a|, 19 + |a| + |gap|;
    TwoWritesLayout(l, a, gap, b, t);
    assert (e == m) <==> (gap == "");
    JudgesTwo(t, f, g, e, m, m + 19 + |b|);
  }

  lemma TwoWritesLayout(l: Lexicon, a: string, gap: string, b: string, t: Text)
    requires KnowsWrite(l) && !l.word(' ') && !l.word('\n') && Plain(a) && Plain(b) && Blank(gap)
    requires t.length == |TwoWrites(a, gap, b)| && Lists(l, TwoWrites(a, gap, b), t.spans)
    ensures var e, m := 19 + |a|, 19 + |a| + |gap|;
      TwoSpans(t.spans, 0, e, m, m + 19 + |b|) && m + 19 + |b| + |DENIED| == t.length
  {
    TwoWritesParts(a, gap, b);
    TwoWritesSpans(l, TwoWrites(a, gap, b), a, gap, b, t.spans);
  }

  /** Two calls from 0 to e and from m to f, each asserting one operation, and a failure at the end. */
  lemma JudgesTwo(t: Text, x: Found, y: Found, e: nat, m: nat, f: nat)
    requires TwoSpans(t.spans, 0, e, m, f) && 0 < e <= m < f && f + |DENIED| == t.length && x.pos == 0 && y.pos == m
    requires FailsAtEnd(t.length, |DENIED| - 1, t.failed)
    ensures Kept(t, [x, y], 2) == if e == m then [] else [(x.path, x.op)]
  {
    var ops := [x, y];
    assert t.spans == [(0, e), (m, f)] && t.spans[1..] == [(m, f)];
    assert OutcomeStart(m, t.spans[1..]) == f;
    assert Boundary(x, t.spans) == e && Boundary(y, t.spans) == f;
    assert ScanEnd(ops, 2, f, t.length) == t.length && ScanEnd(ops, 2, e, t.length) == t.length;
    assert WindowEnd(ops, 1, t.spans, t.length) == t.length;
    assert WindowEnd(ops, 0, t.spans, t.length) == if e == m then t.length else m;
    assert Dropped(t, ops, 1) && (Dropped(t, ops, 0) <==> e == m);
    assert Kept(t, ops, 0) == [];
    assert Kept(t, ops, 1) == if e == m then [] else [(x.path, x.op)];
  }

  // ---------------------------------------------------------------- overlapping calls

  /** The quote that closes the outer call's argument opens one for the inner call, so that each
      call's argument holds the other's closing paren. */
  function Overlapping(x: string, y: string): string {
    Joined(["bash", "(", "\"", "read", "(", x, "\")", y, "\")", DENIED], 10)
  }

  /** The text consists of those pieces, at their places. */
  predicate IsOverlapping(text: string, x: string, y: string) {
    var c, d := 11 + |x|, 13 + |x| + |y|;
    && At(text, 0, "bash") && At(text, 4, "(") && At(text, 5, "\"") && At(text, 6, "read") && At(text, 10, "(")
    && At(text, 11, x) && At(text, c, "\")") && At(text, c + 2, y) && At(text, d, "\")") && At(text, d + 2, DENIED)
    && |text| == d + 2 + |DENIED|
  }

  lemma OverlappingParts(x: string, y: string)
    ensures IsOverlapping(Overlapping(x, y), x, y)
  {
    var parts := ["bash", "(", "\"", "read", "(", x, "\")", y, "\")", DENIED];
    assert |Joined(parts, 0)| == 0;
    assert |Joined(parts, 1)| == 4;
    assert |Joined(parts, 2)| == 5;
    assert |Joined(parts, 3)| == 6;
    assert |Joined(parts, 4)| == 10;
    assert |Joined(parts, 5)| == 11;
    assert |Joined(parts, 6)| == 11 + |x|;
    assert |Joined(parts, 7)| == 13 + |x|;
    assert |Joined(parts, 8)| == 13 + |x| + |y|;
    assert |Joined(parts, 9)| == 15 + |x| + |y|;
    JoinedAt(parts, 0, 10);
    JoinedAt(parts, 1, 10);
    JoinedAt(parts, 2, 10);
    JoinedAt(parts, 3, 10);
    JoinedAt(parts, 4, 10);
    JoinedAt(parts, 5, 10);
    JoinedAt(parts, 6, 10);
    JoinedAt(parts, 7, 10);
    JoinedAt(parts, 8, 10);
    JoinedAt(parts, 9, 10);
  }

  ghost predicate KnowsBashAndRead(l: Lexicon) {
    && Sensible(l) && l.invocation("bash") && l.invocation("read") && !l.outcomeField(")") && !l.word('"')
    && l.word('b') && l.word('a') && l.word('s') && l.word('h') && l.word('r') && l.word('e') && l.word('d')
  }

  lemma QuotedRead(text: string, x: string, y: string)
    requires IsOverlapping(text, x, y) && Plain(x)
    ensures At(text, 6, "read(" + x) && Quotable("read(" + x)
  {
    var r := "read(";
    forall i | 0 <= i < |r + x| ensures text[6 + i] == (r + x)[i] && (r + x)[i] != '"' && (r + x)[i] != '\\' {
      if i < 4 {
        assert text[6 + i] == "read"[i] == r[i];
      } else if i == 4 {
        assert text[10 + 0] == "("[0];
      } else {
        assert text[11 + (i - 5)] == x[i - 5];
      }
    }
  }

  lemma OuterCall(l: Lexicon, text: string, x: string, y: string)
    requires KnowsBashAndRead(l) && IsOverlapping(text, x, y) && Plain(x)
    ensures IsCall(l, text, 4, 0, 13 + |x|)
  {
    var c := 11 + |x|;
    assert text[4 + 0] == "("[0] && text[5 + 0] == "\""[0] && text[c + 0] == "\")"[0] && text[c + 1] == "\")"[1];
    HeadAt(l, text, 0, "bash");
    QuotedRead(text, x, y);
    assert "" + ")" == ")";
    OneQuotedArgument(l, text, 4, "", "read(" + x);
  }

  lemma InnerCall(l: Lexicon, text: string, x: string, y: string)
    requires KnowsBashAndRead(l) && IsOverlapping(text, x, y) && Plain(x) && Plain(y) && !l.outcomeField(x + ")")
    ensures IsCall(l, text, 10, 6, 15 + |x| + |y|)
  {
    var c, d, z := 11 + |x|, 13 + |x| + |y|, ")" + y;
    assert text[10 + 0] == "("[0] && text[5 + 0] == "\""[0] && text[c + 0] == "\")"[0] && text[c + 1] == "\")"[1];
    assert text[d + 0] == "\")"[0] && text[d + 1] == "\")"[1];
    HeadAt(l, text, 6, "read");
    forall i | 0 <= i < |z| ensures text[c + 1 + i] == z[i] && z[i] != '"' && z[i] != '\\' {
      if i > 0 {
        assert text[c + 2 + (i - 1)] == y[i - 1];
      }
    }
    OneQuotedArgument(l, text, 10, x, z);
  }

  lemma OverlappingParen(text: string, x: string, y: string, i: nat)
    requires IsOverlapping(text, x, y) && Plain(x) && Plain(y) && i < |text|
    ensures text[i] == '(' ==> i == 4 || i == 10
  {
    var c, d := 11 + |x|, 13 + |x| + |y|;
    if i < 4 {
      assert text[0 + i] == "bash"[i];
    } else if i == 5 {
      assert text[5 + 0] == "\""[0];
    } else if 6 <= i < 10 {
      assert text[6 + (i - 6)] == "read"[i - 6];
    } else if 11 <= i < c {
      assert text[11 + (i - 11)] == x[i - 11];
    } else if c <= i < c + 2 {
      assert text[c + (i - c)] == "\")"[i - c];
    } else if c + 2 <= i < d {
      assert text[c + 2 + (i - c - 2)] == y[i - c - 2];
    } else if d <= i < d + 2 {
      assert text[d + (i - d)] == "\")"[i - d];
    } else if d + 2 <= i {
      assert text[d + 2 + (i - d - 2)] == DENIED[i - d - 2];
    }
  }

  lemma OverlappingSpans(l: Lexicon, text: string, x: string, y: string, spans: seq<(nat, nat)>)
    requires KnowsBashAndRead(l) && IsOverlapping(text, x, y) && Plain(x) && Plain(y) && !l.outcomeField(x + ")")
    requires Lists(l, text, spans)
    ensures spans == [(0, 13 + |x|), (6, 15 + |x| + |y|)]
  {
    OuterCall(l, text, x, y);
    InnerCall(l, text, x, y);
    forall i | 0 <= i < |text| && text[i] == '(' ensures i == 4 || i == 10 {
      OverlappingParen(text, x, y, i);
    }
    TwoCalls(l, text, spans, 4, 0, 13 + |x|, 10, 6, 15 + |x| + |y|);
  }

  /** Two operations inside one call, the `read(...)`, on either side of where the call around its
      start closes: the one keeps its operation and the other loses it to the failure at the end. */
  lemma OverlapSplitsVerdict(l: Lexicon, x: string, y: string, t: Text, f: Found, g: Found)
    requires KnowsBashAndRead(l) && Plain(x) && Plain(y) && !l.outcomeField(x + ")")
    requires t.length == |Overlapping(x, y)| && Lists(l, Overlapping(x, y), t.spans)
    requires FailsAtEnd(t.length, |DENIED| - 1, t.failed)
    requires 11 <= f.pos < 11 + |x| && 13 + |x| < g.pos < 13 + |x| + |y|
    ensures |t.spans| == 2 && InCall(t.spans, 1, f.pos, g.pos) && Overruns(t.spans, 1)
    ensures Kept(t, [f, g], 2) == [(f.path, f.op)]
  {
    var e, h := 13 + |x|, 15 + |x| + |y|;
    OverlappingLayout(l, x, y, t);
    JudgesOverlap(t, f, g, e, h);
  }

  lemma OverlappingLayout(l: Lexicon, x: string, y: string, t: Text)
    requires KnowsBashAndRead(l) && Plain(x) && Plain(y) && !l.outcomeField(x + ")")
    requires t.length == |Overlapping(x, y)| && Lists(l, Overlapping(x, y), t.spans)
    ensures TwoSpans(t.spans, 0, 13 + |x|, 6, 15 + |x| + |y|) && 15 + |x| + |y| + |DENIED| == t.length
  {
    OverlappingParts(x, y);
    OverlappingSpans(l, Overlapping(x, y), x, y, t.spans);
  }

  lemma JudgesOverlap(t: Text, f: Found, g: Found, e: nat, h: nat)
    requires TwoSpans(t.spans, 0, e, 6, h) && 6 < f.pos < e < g.pos < h && h + |DENIED| == t.length
    requires FailsAtEnd(t.length, |DENIED| - 1, t.failed)
    ensures |t.spans| == 2 && InCall(t.spans, 1, f.pos, g.pos)
    ensures Overruns(t.spans, 1) && Kept(t, [f, g], 2) == [(f.path, f.op)]
  {
    var ops := [f, g];
    assert t.spans == [(0, e), (6, h)] && t.spans[1..] == [(6, h)];
    assert OutcomeStart(g.pos, t.spans[1..]) == h;
    assert Boundary(f, t.spans) == e && Boundary(g, t.spans) == h;
    assert ScanEnd(ops, 2, h, t.length) == t.length;
    assert WindowEnd(ops, 1, t.spans, t.length) == t.length && WindowEnd(ops, 0, t.spans, t.length) == g.pos;
    assert Dropped(t, ops, 1) && !Dropped(t, ops, 0);
    assert Kept(t, ops, 0) == [];
    assert Kept(t, ops, 1) == [(f.path, f.op)];
  }
}
