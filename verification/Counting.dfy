/** Counting positions with a property, and sizes of sets. */
module Counting {

  /** The positions from lo up to hi with the property. */
  function Positions(f: nat -> bool, lo: nat, hi: nat): set<nat> {
    set q: nat | lo <= q < hi && f(q)
  }

  lemma PositionsGrow(f: nat -> bool, lo: nat, hi: nat)
    requires lo <= hi
    ensures |Positions(f, lo, hi + 1)| == |Positions(f, lo, hi)| + if f(hi) then 1 else 0
  {
    var before, after := Positions(f, lo, hi), Positions(f, lo, hi + 1);
    forall q: nat ensures q in after <==> q in before || (q == hi && f(hi)) {
    }
    SizeWith(before, after, hi, f(hi));
  }

  lemma SizeWith<T>(before: set<T>, after: set<T>, x: T, more: bool)
    requires x !in before && forall q :: q in after <==> q in before || (q == x && more)
    ensures |after| == |before| + if more then 1 else 0
  {
    if more {
      assert after == before + {x};
    } else {
      assert after == before;
    }
  }

  lemma {:induction false} SubsetSize<T>(a: set<T>, b: set<T>)
    requires a <= b
    ensures |a| <= |b|
  {
    if a == {} {
    } else {
      var x :| x in a;
      SubsetSize(a - {x}, b - {x});
    }
  }

  /** What is false at 0 and true at n turns true somewhere. */
  lemma {:induction false} Turns(holds: nat -> bool, n: nat) returns (i: nat)
    requires !holds(0) && holds(n)
    ensures i < n && !holds(i) && holds(i + 1)
  {
    if holds(n - 1) {
      i := Turns(holds, n - 1);
    } else {
      i := n - 1;
    }
  }
}
