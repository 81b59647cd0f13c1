/**
  The schedule of an exploration spelled out (distil/calibrate.py, `bandit_select_operating_point`): who is
  drawn in a round, who is dropped after it, when it all stops, and that nothing else is left open.
*/
module ScheduleLaws {
  import opened Bandit

  /** Arm i keeps fewer recent turns than arm j, or as many and is listed earlier. */
  predicate Preferred(arms: seq<Arm>, i: nat, j: nat)
    requires i < |arms| && j < |arms|
  {
    arms[i].gateRecent < arms[j].gateRecent || (arms[i].gateRecent == arms[j].gateRecent && i < j)
  }

  /** Gains less losses per draw, and z standard errors more, are still below the tolerated drop. */
  predicate Hopeless(t: Test, a: Arm) {
    if a.n == 0 then 0.0 < -t.margin
    else (a.c as real - a.b as real) / a.n as real + t.z * t.se(a.b, a.c, a.n) < -t.margin
  }

  /** Enough draws, and z standard errors less are above it. */
  predicate Safe(t: Test, minSamples: int, a: Arm) {
    && a.n > 0 && a.n >= minSamples
    && (a.c as real - a.b as real) / a.n as real - t.z * t.se(a.b, a.c, a.n) > -t.margin
  }

  /** The live arm that is preferred to all other live ones. */
  predicate FrontRunner(arms: seq<Arm>, i: nat) {
    && i < |arms| && arms[i].alive
    && forall j: nat :: j < |arms| && arms[j].alive && j != i ==> Preferred(arms, i, j)
  }

  // ---------------------------------------------------------------- when it stops

  /** It goes on while there is budget, an arm is live, and the front-runner is not safe yet. */
  lemma GoesOnIff(t: Test, budget: nat, minSamples: int, x: Snapshot)
    ensures GoesOn(t, budget, minSamples, x) <==>
      && |x.log| < budget
      && exists i: nat :: FrontRunner(x.arms, i) && !Safe(t, minSamples, x.arms[i])
  {
    var order := Sorted(x.arms, |x.arms|, true);
    LiveOrder(x.arms);
    if |order| > 0 {
      FirstIsFrontRunner(x.arms);
    }
  }

  lemma FirstIsFrontRunner(arms: seq<Arm>)
    requires |Sorted(arms, |arms|, true)| > 0
    ensures FrontRunner(arms, Sorted(arms, |arms|, true)[0])
  {
    var order := Sorted(arms, |arms|, true);
    LiveOrder(arms);
    forall j: nat | j < |arms| && arms[j].alive && j != order[0] ensures Preferred(arms, order[0], j) {
      assert j in order;
      var q :| 0 <= q < |order| && order[q] == j;
    }
  }

  // ---------------------------------------------------------------- one round

  /** The live arms, each once, the preferred ones first. */
  predicate InTurn(arms: seq<Arm>, order: seq<nat>) {
    && (forall p :: 0 <= p < |order| ==> order[p] < |arms| && arms[order[p]].alive)
    && (forall i: nat :: i < |arms| && arms[i].alive ==> i in order)
    && (forall p, q :: 0 <= p < q < |order| ==> Preferred(arms, order[p], order[q]))
  }

  /** Arm i is drawn a batch of times, or until the budget is spent. */
  predicate DrawnInTurn(i: nat, batch: nat, budget: nat, before: seq<nat>, after: seq<nat>) {
    && before <= after
    && |after| == (if |before| + batch <= budget then |before| + batch else budget)
    && forall k :: |before| <= k < |after| ==> after[k] == i
  }

  /** The log after each arm of the order in turn. */
  predicate LogsInTurn(order: seq<nat>, batch: nat, budget: nat, logs: seq<seq<nat>>) {
    && |logs| == |order| + 1
    && forall p :: 0 <= p < |order| ==> DrawnInTurn(order[p], batch, budget, logs[p], logs[p + 1])
  }

  lemma {:induction false} RoundLogFits(log: seq<nat>, order: seq<nat>, batch: nat, budget: nat, n: nat)
    requires n <= |order| && |log| <= budget
    ensures |RoundLog(log, order, batch, budget, n)| <= budget
  {
    if n == 0 {
    } else {
      RoundLogFits(log, order, batch, budget, n - 1);
    }
  }

  lemma RoundLogInTurn(log: seq<nat>, order: seq<nat>, batch: nat, budget: nat) returns (logs: seq<seq<nat>>)
    requires |log| <= budget
    ensures LogsInTurn(order, batch, budget, logs)
    ensures logs[0] == log && logs[|order|] == RoundLog(log, order, batch, budget, |order|)
  {
    logs := seq(|order| + 1, p requires 0 <= p <= |order| => RoundLog(log, order, batch, budget, p));
    forall p | 0 <= p < |order| ensures DrawnInTurn(order[p], batch, budget, logs[p], logs[p + 1]) {
      RoundLogFits(log, order, batch, budget, p);
    }
  }

  /** The arms live after a round are those live before it that are not hopeless now. */
  ghost predicate OnlyHopelessDropped(t: Test, before: seq<Arm>, now: seq<Arm>)
    requires |before| == |now|
  {
    forall i :: 0 <= i < |now| ==> (now[i].alive <==> before[i].alive && !Hopeless(t, now[i]))
  }

  lemma SweptIff(t: Test, before: seq<Arm>, now: seq<Arm>)
    requires |before| == |now|
    ensures Swept(t, before, now) <==> OnlyHopelessDropped(t, before, now)
  {
  }

  /** One round in full: the order in which the live arms take their turns and the log after each. */
  lemma RoundIs(t: Test, budget: nat, batch: nat, x: Snapshot, y: Snapshot)
    returns (order: seq<nat>, logs: seq<seq<nat>>)
    requires |x.log| <= budget && RoundFollows(t, budget, batch, x, y)
    ensures InTurn(x.arms, order)
    ensures LogsInTurn(order, batch, budget, logs) && logs[0] == x.log && logs[|order|] == y.log
    ensures OnlyHopelessDropped(t, x.arms, y.arms)
  {
    order := Sorted(x.arms, |x.arms|, true);
    LiveOrder(x.arms);
    logs := RoundLogInTurn(x.log, order, batch, budget);
    SweptIff(t, x.arms, y.arms);
  }

  // ---------------------------------------------------------------- nothing is left open

  /** Arms that keep count of the same draws have the same counters. */
  lemma SameArm(o: Outcomes, a: Arm, b: Arm, log: seq<nat>, i: nat)
    requires Tracks(o, a, log, i) && Tracks(o, b, log, i) && a.name == b.name && a.gateRecent == b.gateRecent
    ensures a.b == b.b && a.c == b.c && a.n == b.n
  {
    CountPrefix(o, a, b, log, log, |log|, i, 0);
    CountPrefix(o, a, b, log, log, |log|, i, -1);
    CountPrefix(o, a, b, log, log, |log|, i, 1);
  }

  lemma SameRound(o: Outcomes, t: Test, budget: nat, batch: nat, x: Snapshot, y: Snapshot, z: Snapshot)
    requires RoundFollows(t, budget, batch, x, y) && Consistent(o, t, y.arms, y.log)
    requires RoundFollows(t, budget, batch, x, z) && Consistent(o, t, z.arms, z.log)
    ensures y == z
  {
    forall i | 0 <= i < |x.arms| ensures y.arms[i] == z.arms[i] {
      SameArm(o, y.arms[i], z.arms[i], y.log, i);
    }
    assert y.arms == z.arms;
  }

  /** Two runs of rounds from the same start agree as far as both go, whichever draws the stream gives. */
  lemma {:induction false} SameSoFar(o: Outcomes, t: Test, budget: nat, batch: nat, minSamples: int, a: seq<Snapshot>,
                                     b: seq<Snapshot>, start: Snapshot, x: Snapshot, y: Snapshot, r: nat)
    requires Leads(RoundRule(o, t, budget, batch, minSamples), a, start, x)
    requires Leads(RoundRule(o, t, budget, batch, minSamples), b, start, y)
    requires r < |a| && r < |b|
    ensures a[r] == b[r]
  {
    if r > 0 {
      SameSoFar(o, t, budget, batch, minSamples, a, b, start, x, y, r - 1);
      SameRound(o, t, budget, batch, a[r - 1], a[r], b[r]);
    }
  }

  lemma WentOn(o: Outcomes, t: Test, budget: nat, batch: nat, minSamples: int, a: seq<Snapshot>, start: Snapshot,
               x: Snapshot, r: nat)
    requires Leads(RoundRule(o, t, budget, batch, minSamples), a, start, x) && r < |a|
    ensures r + 1 < |a| ==> GoesOn(t, budget, minSamples, a[r])
  {
    if r + 1 < |a| {
      assert RoundRule(o, t, budget, batch, minSamples)(a[r], a[r + 1]);
    }
  }

  /** The outcome of an exploration is determined by the points, the stream of draws and the settings. */
  lemma ExplorationUnique(o: Outcomes, t: Test, budget: nat, batch: nat, minSamples: int, arms: seq<Arm>,
                          x: Snapshot, y: Snapshot)
    requires Explored(o, t, budget, batch, minSamples, arms, x)
    requires Explored(o, t, budget, batch, minSamples, arms, y)
    ensures x == y
  {
    var rule, start := RoundRule(o, t, budget, batch, minSamples), Snapshot(arms, []);
    var a :| Leads(rule, a, start, x);
    var b :| Leads(rule, b, start, y);
    var r := if |a| < |b| then |a| - 1 else |b| - 1;
    SameSoFar(o, t, budget, batch, minSamples, a, b, start, x, y, r);
    WentOn(o, t, budget, batch, minSamples, a, start, x, r);
    WentOn(o, t, budget, batch, minSamples, b, start, y, r);
  }
}
