/**
  Which asserted file operations count as having happened (distil/artifacts.py, `extract_ops`):
  each operation is judged on the text from where its outcome can first appear up to where the
  next operation is asserted.
*/
module OpWindows {
  import opened Wrappers
  import opened CallScanner

  datatype Op = READ | CREATE | MODIFY | DELETE

  /** An operation some pattern found: where, on what path, and what it does. */
  datatype Found = Found(pos: nat, path: string, op: Op)

  type Span = (nat, nat)

  // ---------------------------------------------------------------- sorting by position

  /** Insert into a sorted list, after everything at the same position. */
  function Insert(x: Found, s: seq<Found>, n: nat): (r: seq<Found>)
    requires n <= |s|
  {
    if n == 0 then [x] + s
    else if s[n - 1].pos <= x.pos then s[..n] + [x] + s[n..]
    else Insert(x, s, n - 1)
  }

  /** The stable sort by position. */
  function SortByPos(found: seq<Found>, n: nat): seq<Found>
    requires n <= |found|
  {
    if n == 0 then []
    else
      var s := SortByPos(found, n - 1);
      Insert(found[n - 1], s, |s|)
  }

  predicate SortedByPos(s: seq<Found>) {
    forall i, j :: 0 <= i < j < |s| ==> s[i].pos <= s[j].pos
  }

  lemma SpliceSorts(x: Found, s: seq<Found>, n: nat)
    requires n <= |s| && SortedByPos(s)
    requires n > 0 ==> s[n - 1].pos <= x.pos
    requires n < |s| ==> x.pos <= s[n].pos
    ensures SortedByPos(s[..n] + [x] + s[n..])
  {
    var r := s[..n] + [x] + s[n..];
    forall i, j | 0 <= i < j < |r| ensures r[i].pos <= r[j].pos {
      assert r[i] == (if i < n then s[i] else if i == n then x else s[i - 1]);
      assert r[j] == (if j < n then s[j] else if j == n then x else s[j - 1]);
    }
  }

  lemma {:induction false} InsertSorts(x: Found, s: seq<Found>, n: nat)
    requires n <= |s| && SortedByPos(s)
    requires n < |s| ==> x.pos <= s[n].pos
    ensures SortedByPos(Insert(x, s, n))
  {
    if n == 0 {
      assert [x] + s == s[..0] + [x] + s[0..];
      SpliceSorts(x, s, 0);
    } else if s[n - 1].pos <= x.pos {
      SpliceSorts(x, s, n);
    } else {
      InsertSorts(x, s, n - 1);
    }
  }

  lemma {:induction false} InsertAdds(x: Found, s: seq<Found>, n: nat)
    requires n <= |s|
    ensures multiset(Insert(x, s, n)) == multiset(s) + multiset{x}
  {
    if n > 0 && s[n - 1].pos > x.pos {
      InsertAdds(x, s, n - 1);
    } else if n > 0 {
      assert s == s[..n] + s[n..];
    }
  }

  lemma {:induction false} SortByPosSorts(found: seq<Found>, n: nat)
    requires n <= |found|
    ensures SortedByPos(SortByPos(found, n))
    ensures multiset(SortByPos(found, n)) == multiset(found[..n])
  {
    if n == 0 {
    } else {
      SortByPosSorts(found, n - 1);
      var s := SortByPos(found, n - 1);
      InsertSorts(found[n - 1], s, |s|);
      InsertAdds(found[n - 1], s, |s|);
      assert found[..n] == found[..n - 1] + [found[n - 1]];
    }
  }

  // ---------------------------------------------------------------- windows, as computed

  /** Just past the first listed call that contains start, or start itself. */
  function OutcomeStart(start: nat, spans: seq<Span>): nat {
    if spans == [] then start
    else if spans[0].0 <= start < spans[0].1 then spans[0].1
    else OutcomeStart(start, spans[1..])
  }

  function Boundary(f: Found, spans: seq<Span>): nat {
    var s := OutcomeStart(f.pos, spans);
    if s < f.pos then f.pos else s
  }

  /** First position after b among ops[i..], or the end of the text. */
  function ScanEnd(ops: seq<Found>, i: nat, b: nat, length: nat): nat
    requires i <= |ops|
    decreases |ops| - i
  {
    if i == |ops| then length
    else if ops[i].pos > b then ops[i].pos
    else ScanEnd(ops, i + 1, b, length)
  }

  function WindowEnd(ops: seq<Found>, i: nat, spans: seq<Span>, length: nat): nat
    requires i < |ops|
  {
    ScanEnd(ops, i + 1, Boundary(ops[i], spans), length)
  }

  /** The text a transcript block is, as far as the judgement goes: its length, the spans of its calls,
      and where a failure marker can be found. */
  datatype Text = Text(length: nat, spans: seq<Span>, failed: (nat, nat) -> bool)

  /** A failure marker in an operation's window says that it did not happen. */
  predicate Dropped(t: Text, ops: seq<Found>, i: nat)
    requires i < |ops|
  {
    t.failed(Boundary(ops[i], t.spans), WindowEnd(ops, i, t.spans, t.length))
  }

  /** The operations among the first n that are not followed by a failure in their window. */
  function Kept(t: Text, ops: seq<Found>, n: nat): seq<(string, Op)>
    requires n <= |ops|
  {
    if n == 0 then []
    else
      var before, f := Kept(t, ops, n - 1), ops[n - 1];
      if Dropped(t, ops, n - 1) then before else before + [(f.path, f.op)]
  }

  function Untested(found: seq<Found>): seq<(string, Op)> {
    seq(|found|, i requires 0 <= i < |found| => (found[i].path, found[i].op))
  }

  method FindOutcomeStart(start: nat, spans: seq<Span>) returns (r: nat)
    ensures r == OutcomeStart(start, spans)
  {
    for i := 0 to |spans|
      invariant OutcomeStart(start, spans) == OutcomeStart(start, spans[i..])
    {
      if spans[i].0 <= start < spans[i].1 {
        return spans[i].1;
      }
    }
    r := start;
  }

  /** A block whose result was judged before is taken as it is; otherwise each operation is judged,
      the calls being those the scanner finds. */
  method ExtractOps(l: Lexicon, text: string, failed: (nat, nat) -> bool, found: seq<Found>, adjudicated: bool)
    returns (kept: seq<(string, Op)>, ghost t: Text)
    requires Sensible(l)
    ensures adjudicated ==>
      |kept| == |found| && forall i :: 0 <= i < |found| ==> kept[i] == (found[i].path, found[i].op)
    ensures !adjudicated ==> t.length == |text| && t.failed == failed && Lists(l, text, t.spans)
    ensures !adjudicated ==> var ops := SortByPos(found, |found|); kept == Kept(t, ops, |ops|)
  {
    t := Text(|text|, [], failed);
    if adjudicated {
      return Untested(found), t;
    }
    var spans := CallSpans(l, text);
    kept := Judge(Text(|text|, spans, failed), found);
    t := Text(|text|, spans, failed);
  }

  /** Each operation, in order of position, is kept unless a failure shows in its window. */
  method Judge(t: Text, found: seq<Found>) returns (kept: seq<(string, Op)>)
    ensures var ops := SortByPos(found, |found|); kept == Kept(t, ops, |ops|)
  {
    var ops := SortByPos(found, |found|);
    kept := [];
    for i := 0 to |ops|
      invariant kept == Kept(t, ops, i)
    {
      var start := FindOutcomeStart(ops[i].pos, t.spans);
      var boundary := if start < ops[i].pos then ops[i].pos else start;
      var end, k := t.length, i + 1;
      while k < |ops|
        invariant i < k <= |ops|
        invariant ScanEnd(ops, i + 1, boundary, t.length) == ScanEnd(ops, k, boundary, t.length)
        invariant end == t.length
      {
        if ops[k].pos > boundary {
          end := ops[k].pos;
          break;
        }
        k := k + 1;
      }
      assert end == WindowEnd(ops, i, t.spans, t.length);
      if !t.failed(boundary, end) {
        kept := kept + [(ops[i].path, ops[i].op)];
      }
    }
  }

  // ---------------------------------------------------------------- windows, as meant

  /** e is the least operation position after b, or the end of the text when there is none. */
  predicate IsNextAfter(ops: seq<Found>, b: nat, length: nat, e: nat) {
    && (forall k :: 0 <= k < |ops| && ops[k].pos > b ==> e <= ops[k].pos)
    && if forall k :: 0 <= k < |ops| ==> ops[k].pos <= b then e == length
       else exists k :: 0 <= k < |ops| && ops[k].pos == e > b
  }

  lemma {:induction false} ScanEndIsNext(ops: seq<Found>, i: nat, b: nat, length: nat)
    requires i <= |ops| && SortedByPos(ops)
    requires forall k :: 0 <= k < i ==> ops[k].pos <= b
    ensures IsNextAfter(ops, b, length, ScanEnd(ops, i, b, length))
    decreases |ops| - i
  {
    if i < |ops| && ops[i].pos <= b {
      ScanEndIsNext(ops, i + 1, b, length);
    }
  }

  lemma BoundaryAtLeast(f: Found, spans: seq<Span>)
    ensures Boundary(f, spans) >= f.pos
  {
  }

  /** The window end found by scanning from an operation's own index depends on its boundary only. */
  lemma WindowEndIsNext(ops: seq<Found>, i: nat, spans: seq<Span>, length: nat)
    requires i < |ops| && SortedByPos(ops)
    ensures IsNextAfter(ops, Boundary(ops[i], spans), length, WindowEnd(ops, i, spans, length))
  {
    BoundaryAtLeast(ops[i], spans);
    ScanEndIsNext(ops, i + 1, Boundary(ops[i], spans), length);
  }

  lemma SameBoundarySameWindow(ops: seq<Found>, i: nat, j: nat, spans: seq<Span>, length: nat)
    requires i < |ops| && j < |ops| && SortedByPos(ops)
    requires Boundary(ops[i], spans) == Boundary(ops[j], spans)
    ensures WindowEnd(ops, i, spans, length) == WindowEnd(ops, j, spans, length)
  {
    WindowEndIsNext(ops, i, spans, length);
    WindowEndIsNext(ops, j, spans, length);
  }

  /** p and q are both inside call k. */
  predicate InCall(spans: seq<Span>, k: nat, p: nat, q: nat)
    requires k < |spans|
  {
    spans[k].0 <= p < spans[k].1 && spans[k].0 <= q < spans[k].1
  }

  /** Call k runs on past the end of the call that the scan finds around its start. */
  predicate Overruns(spans: seq<Span>, k: nat)
    requires k < |spans|
  {
    OutcomeStart(spans[k].0, spans) < spans[k].1
  }

  /** The first listed call that contains p, if any. */
  function FirstAround(p: nat, spans: seq<Span>, n: nat): (i: Option<nat>)
    requires n <= |spans|
    ensures i.Some? ==> i.value < n && spans[i.value].0 <= p < spans[i.value].1
    ensures forall j :: 0 <= j < (if i.Some? then i.value else n) ==> !(spans[j].0 <= p < spans[j].1)
  {
    if n == 0 then None
    else
      var i := FirstAround(p, spans, n - 1);
      if i.None? && spans[n - 1].0 <= p < spans[n - 1].1 then Some(n - 1) else i
  }

  /** The boundary is the end of the first listed call around p, or p itself when no call is. */
  lemma {:induction false} OutcomeStartIs(p: nat, spans: seq<Span>)
    ensures var i := FirstAround(p, spans, |spans|);
      OutcomeStart(p, spans) == if i.Some? then spans[i.value].1 else p
  {
    if spans == [] {
    } else if spans[0].0 <= p < spans[0].1 {
    } else {
      OutcomeStartIs(p, spans[1..]);
      var i, j := FirstAround(p, spans, |spans|), FirstAround(p, spans[1..], |spans| - 1);
      forall k | 0 <= k < |spans| - 1 ensures spans[1..][k] == spans[k + 1] {
      }
      assert i.Some? ==> spans[1..][i.value - 1] == spans[i.value];
      assert j.Some? ==> spans[j.value + 1] == spans[1..][j.value];
    }
  }

  /** In a call that does not overrun, every position has the same boundary. */
  lemma SameCallSameBoundary(spans: seq<Span>, k: nat, p: nat)
    requires StartsInOrder(spans) && k < |spans| && !Overruns(spans, k) && spans[k].0 <= p < spans[k].1
    ensures OutcomeStart(p, spans) == OutcomeStart(spans[k].0, spans)
  {
    var s := spans[k].0;
    OutcomeStartIs(s, spans);
    OutcomeStartIs(p, spans);
    var i, j := FirstAround(s, spans, |spans|), FirstAround(p, spans, |spans|);
    assert spans[i.value].0 <= p < spans[i.value].1;
    assert j.value <= i.value;
  }

  /** All positions of a call share one boundary exactly when the call does not overrun the call
      found around its start. */
  lemma SameCallSameBoundaryIff(spans: seq<Span>, length: nat, k: nat)
    requires StartsInOrder(spans) && SpansWithin(spans, length) && k < |spans|
    ensures (forall p: nat, q: nat :: InCall(spans, k, p, q) ==> OutcomeStart(p, spans) == OutcomeStart(q, spans))
            <==> !Overruns(spans, k)
  {
    var s := spans[k].0;
    if Overruns(spans, k) {
      var q := OutcomeStart(s, spans);
      OutcomeStartIs(s, spans);
      OutcomeStartIs(q, spans);
      assert InCall(spans, k, s, q);
      assert OutcomeStart(q, spans) > q;
    } else {
      forall p: nat, q: nat | InCall(spans, k, p, q) ensures OutcomeStart(p, spans) == OutcomeStart(q, spans) {
        SameCallSameBoundary(spans, k, p);
        SameCallSameBoundary(spans, k, q);
      }
    }
  }

  /** Of two calls the later starting one lies behind the other or inside it. */
  predicate Nested(spans: seq<Span>) {
    forall j, k :: 0 <= j < k < |spans| ==> spans[j].1 <= spans[k].0 || spans[k].1 <= spans[j].1
  }

  lemma NestedNeverOverruns(spans: seq<Span>, length: nat, k: nat)
    requires SpansWithin(spans, length) && Nested(spans) && k < |spans|
    ensures !Overruns(spans, k)
  {
    OutcomeStartIs(spans[k].0, spans);
  }

  /** Operations of one command share its outcome: with the same position, or inside the same call
      when that call does not overrun, they have one window and one verdict. */
  lemma OneCommandOneVerdict(t: Text, ops: seq<Found>, i: nat, j: nat)
    requires i < |ops| && j < |ops| && SortedByPos(ops)
    requires ops[i].pos == ops[j].pos
      || (StartsInOrder(t.spans)
          && exists k :: 0 <= k < |t.spans| && InCall(t.spans, k, ops[i].pos, ops[j].pos) && !Overruns(t.spans, k))
    ensures Boundary(ops[i], t.spans) == Boundary(ops[j], t.spans)
    ensures WindowEnd(ops, i, t.spans, t.length) == WindowEnd(ops, j, t.spans, t.length)
    ensures Dropped(t, ops, i) <==> Dropped(t, ops, j)
  {
    if ops[i].pos != ops[j].pos {
      var k :| 0 <= k < |t.spans| && InCall(t.spans, k, ops[i].pos, ops[j].pos) && !Overruns(t.spans, k);
      SameCallSameBoundary(t.spans, k, ops[i].pos);
      SameCallSameBoundary(t.spans, k, ops[j].pos);
      InCallBoundary(t.spans, ops[i]);
      InCallBoundary(t.spans, ops[j]);
    }
    SameBoundarySameWindow(ops, i, j, t.spans, t.length);
  }

  lemma InCallBoundary(spans: seq<Span>, f: Found)
    ensures Boundary(f, spans) == OutcomeStart(f.pos, spans)
  {
    OutcomeStartIs(f.pos, spans);
  }

  /** A window is empty only at the end of the text, never because another operation cuts it off. */
  lemma WindowEmptyIff(ops: seq<Found>, i: nat, spans: seq<Span>, length: nat)
    requires i < |ops| && SortedByPos(ops) && SpansWithin(spans, length)
    requires forall k :: 0 <= k < |ops| ==> ops[k].pos <= length
    ensures var b, e := Boundary(ops[i], spans), WindowEnd(ops, i, spans, length);
      b <= e <= length && (b == e <==> b == length)
  {
    OutcomeStartIs(ops[i].pos, spans);
    WindowEndIsNext(ops, i, spans, length);
  }

  // ---------------------------------------------------------------- two windows

  /** Operation j is asserted exactly at i's boundary, by a call that ends inside i's window. */
  predicate Trespasses(ops: seq<Found>, j: nat, i: nat, spans: seq<Span>, length: nat)
    requires i < |ops| && j < |ops|
  {
    ops[j].pos == Boundary(ops[i], spans) < Boundary(ops[j], spans) < WindowEnd(ops, i, spans, length)
  }

  predicate IdenticalOrDisjoint(b1: nat, e1: nat, b2: nat, e2: nat) {
    (b1 == b2 && e1 == e2) || e1 <= b2 || e2 <= b1
  }

  /** If the window of i starts first, it ends before j's starts, unless j trespasses. */
  lemma EarlierWindowEnds(ops: seq<Found>, i: nat, j: nat, spans: seq<Span>, length: nat)
    requires i < |ops| && j < |ops| && SortedByPos(ops) && StartsInOrder(spans)
    requires Boundary(ops[i], spans) < Boundary(ops[j], spans)
    ensures WindowEnd(ops, i, spans, length) <= Boundary(ops[j], spans) || Trespasses(ops, j, i, spans, length)
  {
    WindowEndIsNext(ops, i, spans, length);
    OutcomeStartIs(ops[i].pos, spans);
    OutcomeStartIs(ops[j].pos, spans);
  }

  /** However calls nest or overlap, two windows are identical or disjoint, except exactly when one
      operation is asserted at the other's boundary by a call that ends inside the other's window. */
  lemma WindowsIdenticalOrDisjointIff(ops: seq<Found>, i: nat, j: nat, spans: seq<Span>, length: nat)
    requires i < |ops| && j < |ops| && SortedByPos(ops) && StartsInOrder(spans) && SpansWithin(spans, length)
    requires forall k :: 0 <= k < |ops| ==> ops[k].pos <= length
    ensures var bi, ei := Boundary(ops[i], spans), WindowEnd(ops, i, spans, length);
      var bj, ej := Boundary(ops[j], spans), WindowEnd(ops, j, spans, length);
      IdenticalOrDisjoint(bi, ei, bj, ej) <==>
      !Trespasses(ops, j, i, spans, length) && !Trespasses(ops, i, j, spans, length)
  {
    var bi, bj := Boundary(ops[i], spans), Boundary(ops[j], spans);
    WindowEmptyIff(ops, i, spans, length);
    WindowEmptyIff(ops, j, spans, length);
    if bi == bj {
      SameBoundarySameWindow(ops, i, j, spans, length);
    } else if bi < bj {
      EarlierWindowEnds(ops, i, j, spans, length);
    } else {
      EarlierWindowEnds(ops, j, i, spans, length);
    }
  }
}
