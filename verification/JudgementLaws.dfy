/**
  What a transcript's operations come to (distil/artifacts.py, `extract_ops` and `build_ledger`): which
  of them count, in which order, and the state of a file in the end, operation by operation.
*/
module JudgementLaws {
  import opened Wrappers
  import opened CallScanner
  import opened OpWindows
  import opened Ledger

  // ---------------------------------------------------------------- which operations count

  predicate Around(span: Span, pos: nat) {
    span.0 <= pos < span.1
  }

  /** The outcome of an operation at pos starts at b: at the end of the first call listed around it, or
      at pos itself when no call is around it. */
  predicate OutcomeFrom(spans: seq<Span>, pos: nat, b: nat) {
    || (b == pos && forall i :: 0 <= i < |spans| ==> !Around(spans[i], pos))
    || (exists i :: 0 <= i < |spans| && Around(spans[i], pos) && b == spans[i].1
          && forall j :: 0 <= j < i ==> !Around(spans[j], pos))
  }

  lemma BoundaryIs(f: Found, spans: seq<Span>)
    ensures OutcomeFrom(spans, f.pos, Boundary(f, spans))
  {
    OutcomeStartIs(f.pos, spans);
    var i := FirstAround(f.pos, spans, |spans|);
    if i.Some? {
      assert Around(spans[i.value], f.pos);
    }
  }

  lemma OutcomeUnique(spans: seq<Span>, pos: nat, a: nat, b: nat)
    requires OutcomeFrom(spans, pos, a) && OutcomeFrom(spans, pos, b)
    ensures a == b
  {
  }

  /** For every transcript and every one of its operations, in order of position: it counts exactly when
      no failure shows from where its outcome starts up to the next operation after that, or the end. */
  lemma JudgedBy(t: Text, ops: seq<Found>, k: nat, b: nat, e: nat)
    requires SortedByPos(ops) && k < |ops| && OutcomeFrom(t.spans, ops[k].pos, b) && IsNextAfter(ops, b, t.length, e)
    ensures Kept(t, ops, 0) == []
    ensures Kept(t, ops, k + 1) == Kept(t, ops, k) + if t.failed(b, e) then [] else [(ops[k].path, ops[k].op)]
  {
    BoundaryIs(ops[k], t.spans);
    OutcomeUnique(t.spans, ops[k].pos, b, Boundary(ops[k], t.spans));
    WindowEndIsNext(ops, k, t.spans, t.length);
    NextUnique(ops, b, t.length, e, WindowEnd(ops, k, t.spans, t.length));
  }

  lemma NextUnique(ops: seq<Found>, b: nat, length: nat, e: nat, f: nat)
    requires IsNextAfter(ops, b, length, e) && IsNextAfter(ops, b, length, f)
    ensures e == f
  {
  }

  // ---------------------------------------------------------------- in which order

  /** The operations among the first n that are asserted at p, in order. */
  function AssertedAt(ops: seq<Found>, n: nat, p: nat): seq<Found>
    requires n <= |ops|
  {
    if n == 0 then []
    else if ops[n - 1].pos == p then AssertedAt(ops, n - 1, p) + [ops[n - 1]]
    else AssertedAt(ops, n - 1, p)
  }

  lemma {:induction false} AssertedOfPrefix(a: seq<Found>, b: seq<Found>, n: nat, p: nat)
    requires n <= |a| && a <= b
    ensures AssertedAt(a, n, p) == AssertedAt(b, n, p)
  {
    if n == 0 {
    } else {
      AssertedOfPrefix(a, b, n - 1, p);
    }
  }

  lemma {:induction false} AssertedOfSum(a: seq<Found>, b: seq<Found>, n: nat, p: nat)
    requires n <= |b|
    ensures AssertedAt(a + b, |a| + n, p) == AssertedAt(a, |a|, p) + AssertedAt(b, n, p)
  {
    if n == 0 {
      AssertedOfPrefix(a, a + b, |a|, p);
    } else {
      AssertedOfSum(a, b, n - 1, p);
    }
  }

  lemma {:induction false} NoneAssertedAt(ops: seq<Found>, n: nat, p: nat)
    requires n <= |ops| && forall i :: 0 <= i < |ops| ==> ops[i].pos != p
    ensures AssertedAt(ops, n, p) == []
  {
    if n == 0 {
    } else {
      NoneAssertedAt(ops, n - 1, p);
    }
  }

  /** Inserting x before everything later leaves what is asserted elsewhere alone and adds x at the end
      of its own position. */
  lemma SpliceKeepsTies(x: Found, a: seq<Found>, b: seq<Found>, before: seq<Found>, after: seq<Found>, p: nat)
    requires before == a + b && after == a + [x] + b && forall i :: 0 <= i < |b| ==> b[i].pos != x.pos
    ensures AssertedAt(after, |after|, p) == AssertedAt(before, |before|, p) + if x.pos == p then [x] else []
  {
    AssertedOfSum(a + [x], b, |b|, p);
    AssertedOfPrefix(a, a + [x], |a|, p);
    AssertedOfSum(a, b, |b|, p);
    if x.pos == p {
      NoneAssertedAt(b, |b|, p);
    }
  }

  /** x is inserted somewhere, with everything later behind it. */
  lemma {:induction false} InsertSplices(x: Found, s: seq<Found>, n: nat) returns (k: nat)
    requires n <= |s| && forall i :: n <= i < |s| ==> s[i].pos > x.pos
    ensures k <= |s| && Insert(x, s, n) == s[..k] + [x] + s[k..] && forall i :: k <= i < |s| ==> s[i].pos > x.pos
  {
    if n == 0 {
      k := 0;
      assert s[..0] + [x] + s[0..] == [x] + s;
    } else if s[n - 1].pos <= x.pos {
      k := n;
    } else {
      k := InsertSplices(x, s, n - 1);
    }
  }

  lemma InsertKeepsTies(x: Found, s: seq<Found>, p: nat)
    ensures var r := Insert(x, s, |s|);
      AssertedAt(r, |r|, p) == AssertedAt(s, |s|, p) + if x.pos == p then [x] else []
  {
    var k := InsertSplices(x, s, |s|);
    assert s == s[..k] + s[k..];
    SpliceKeepsTies(x, s[..k], s[k..], s, Insert(x, s, |s|), p);
  }

  /** The operations of one position stay in the order in which they were found. */
  lemma {:induction false} SortKeepsTies(found: seq<Found>, n: nat, p: nat)
    requires n <= |found|
    ensures AssertedAt(SortByPos(found, n), |SortByPos(found, n)|, p) == AssertedAt(found, n, p)
  {
    if n == 0 {
    } else {
      var s := SortByPos(found, n - 1);
      SortKeepsTies(found, n - 1, p);
      InsertKeepsTies(found[n - 1], s, p);
    }
  }

  // ---------------------------------------------------------------- the state of a file in the end

  /** For every trajectory and path: a path has a state exactly when some turn mentions it, and then the
      last such turn decides: deleted if it deletes the path at all, else modified if it modifies it,
      else created if it creates it, else read. */
  lemma FinalState(turns: seq<Turn>, path: string)
    ensures var state, i := Fold(turns, |turns|), LastMention(turns, |turns|, path);
      && (path in state <==> exists j :: 0 <= j < |turns| && Mentions(turns[j], path))
      && (path in state ==>
            && i >= 0
            && (state[path] == DELETE <==> (path, DELETE) in turns[i])
            && (state[path] == MODIFY <==> (path, MODIFY) in turns[i] && (path, DELETE) !in turns[i])
            && (state[path] == CREATE <==>
                  (path, CREATE) in turns[i] && (path, MODIFY) !in turns[i] && (path, DELETE) !in turns[i])
            && (state[path] == READ <==>
                  && (path, READ) in turns[i] && (path, CREATE) !in turns[i]
                  && (path, MODIFY) !in turns[i] && (path, DELETE) !in turns[i]))
  {
    var state, i := Fold(turns, |turns|), LastMention(turns, |turns|, path);
    FinalStateIs(turns, |turns|, path);
    if path in state {
      StrongestByKind(turns[i], path, state[path]);
    }
  }

  lemma StrongestByKind(turn: Turn, path: string, op: Op)
    requires StrongestIn(turn, path, op)
    ensures op == DELETE <==> (path, DELETE) in turn
    ensures op == MODIFY <==> (path, MODIFY) in turn && (path, DELETE) !in turn
    ensures op == CREATE <==> (path, CREATE) in turn && (path, MODIFY) !in turn && (path, DELETE) !in turn
    ensures op == READ <==>
      (path, READ) in turn && (path, CREATE) !in turn && (path, MODIFY) !in turn && (path, DELETE) !in turn
  {
    AtMost(turn, path, op, DELETE);
    AtMost(turn, path, op, MODIFY);
    AtMost(turn, path, op, CREATE);
    AtMost(turn, path, op, READ);
  }

  lemma AtMost(turn: Turn, path: string, op: Op, other: Op)
    requires StrongestIn(turn, path, op)
    ensures (path, op) in turn
    ensures (path, other) in turn ==> Strength(other) <= Strength(op)
  {
  }
}
