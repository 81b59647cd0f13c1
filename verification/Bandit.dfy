/**
  Budgeted successive elimination under a non-inferiority constraint (distil/calibrate.py,
  `bandit_select_operating_point`, with the interval of distil/certify/stats.py).  The standard
  error is given; outcomes are an arbitrary stream of draws.
*/
module Bandit {
  import opened Wrappers

  /** Counters of one operating point: losses b, gains c, samples n. */
  datatype Arm = Arm(name: string, gateRecent: int, b: nat, c: nat, n: nat, alive: bool)

  /** The paired test: standard error of (b, c, n), its quantile and the tolerated drop. */
  datatype Test = Test(se: (nat, nat, nat) -> real, z: real, margin: real)

  /** The k-th draw, for the arm with this name and gate. */
  type Outcomes = (string, int, nat) -> int

  ghost predicate Sound(t: Test) {
    t.z >= 0.0 && forall b, c, n :: t.se(b, c, n) >= 0.0
  }

  function Delta(a: Arm): real
    requires a.n > 0
  {
    (a.c - a.b) as real / a.n as real
  }

  function Low(t: Test, a: Arm): real {
    if a.n == 0 then 0.0 else Delta(a) - t.z * t.se(a.b, a.c, a.n)
  }

  function High(t: Test, a: Arm): real {
    if a.n == 0 then 0.0 else Delta(a) + t.z * t.se(a.b, a.c, a.n)
  }

  predicate NonInferior(t: Test, a: Arm) {
    a.n > 0 && Low(t, a) > -t.margin
  }

  predicate DecisivelyInferior(t: Test, a: Arm) {
    High(t, a) < -t.margin
  }

  predicate Certified(t: Test, minSamples: int, a: Arm) {
    NonInferior(t, a) && a.n >= minSamples
  }

  lemma IntervalOrdered(t: Test, a: Arm)
    requires Sound(t)
    ensures Low(t, a) <= High(t, a)
    ensures DecisivelyInferior(t, a) ==> !NonInferior(t, a)
  {
    if a.n > 0 {
      assert t.z * t.se(a.b, a.c, a.n) >= 0.0;
    }
  }

  // ---------------------------------------------------------------- most aggressive first

  /** Arm i is preferred to arm j: fewer recent turns kept, or the same and listed earlier. */
  predicate Before(arms: seq<Arm>, i: nat, j: nat)
    requires i < |arms| && j < |arms|
  {
    arms[i].gateRecent < arms[j].gateRecent || (arms[i].gateRecent == arms[j].gateRecent && i < j)
  }

  predicate Indices(order: seq<nat>, n: nat) {
    forall p :: 0 <= p < |order| ==> order[p] < n
  }

  predicate Ranked(arms: seq<Arm>, order: seq<nat>) {
    Indices(order, |arms|) && forall p, q :: 0 <= p < q < |order| ==> Before(arms, order[p], order[q])
  }

  /** Where arm i belongs among the first n listed ones: after every one at least as aggressive. */
  function Slot(arms: seq<Arm>, i: nat, order: seq<nat>, n: nat): (k: nat)
    requires i < |arms| && n <= |order| && Indices(order, |arms|)
    ensures k <= n
  {
    if n == 0 || arms[order[n - 1]].gateRecent <= arms[i].gateRecent then n else Slot(arms, i, order, n - 1)
  }

  function Insert(arms: seq<Arm>, i: nat, order: seq<nat>): (r: seq<nat>)
    requires i < |arms| && Indices(order, |arms|)
    ensures Indices(r, |arms|)
  {
    var k := Slot(arms, i, order, |order|);
    order[..k] + [i] + order[k..]
  }

  /** The arms, or the live ones, stably sorted by how aggressive they are. */
  function Sorted(arms: seq<Arm>, n: nat, aliveOnly: bool): (order: seq<nat>)
    requires n <= |arms|
    ensures Indices(order, |arms|)
  {
    if n == 0 then []
    else
      var order := Sorted(arms, n - 1, aliveOnly);
      if aliveOnly && !arms[n - 1].alive then order else Insert(arms, n - 1, order)
  }

  lemma {:induction false} SlotIsRight(arms: seq<Arm>, i: nat, order: seq<nat>, n: nat)
    requires i < |arms| && n <= |order| && Ranked(arms, order)
    requires forall p :: n <= p < |order| ==> arms[i].gateRecent < arms[order[p]].gateRecent
    ensures var k := Slot(arms, i, order, n);
      && (forall p :: 0 <= p < k ==> arms[order[p]].gateRecent <= arms[i].gateRecent)
      && (forall p :: k <= p < |order| ==> arms[i].gateRecent < arms[order[p]].gateRecent)
  {
    if n > 0 && arms[order[n - 1]].gateRecent > arms[i].gateRecent {
      SlotIsRight(arms, i, order, n - 1);
    }
  }

  lemma InsertRanks(arms: seq<Arm>, i: nat, order: seq<nat>)
    requires i < |arms| && Indices(order, i) && Ranked(arms, order)
    ensures RankedWithin(arms, Insert(arms, i, order), i + 1)
  {
    SlotIsRight(arms, i, order, |order|);
    var k, r := Slot(arms, i, order, |order|), Insert(arms, i, order);
    forall p, q | 0 <= p < q < |r| ensures Before(arms, r[p], r[q]) {
      assert r[p] == if p < k then order[p] else if p == k then i else order[p - 1];
      assert r[q] == if q < k then order[q] else if q == k then i else order[q - 1];
    }
  }

  lemma InsertHas(arms: seq<Arm>, i: nat, order: seq<nat>, x: nat)
    requires i < |arms| && Indices(order, |arms|)
    ensures x in Insert(arms, i, order) <==> x == i || x in order
  {
    var k := Slot(arms, i, order, |order|);
    assert order == order[..k] + order[k..];
  }

  lemma {:induction false} SortedHas(arms: seq<Arm>, n: nat, aliveOnly: bool, x: nat)
    requires n <= |arms|
    ensures x in Sorted(arms, n, aliveOnly) <==> x < n && (aliveOnly ==> arms[x].alive)
  {
    if n == 0 {
    } else {
      SortedHas(arms, n - 1, aliveOnly, x);
      InsertHas(arms, n - 1, Sorted(arms, n - 1, aliveOnly), x);
    }
  }

  lemma {:induction false} SortedRanks(arms: seq<Arm>, n: nat, aliveOnly: bool)
    requires n <= |arms|
    ensures RankedWithin(arms, Sorted(arms, n, aliveOnly), n)
  {
    if n == 0 {
    } else {
      var order := Sorted(arms, n - 1, aliveOnly);
      SortedRanks(arms, n - 1, aliveOnly);
      if aliveOnly && !arms[n - 1].alive {
        assert Sorted(arms, n, aliveOnly) == order;
        StillWithin(arms, order, n - 1);
      } else {
        assert Sorted(arms, n, aliveOnly) == Insert(arms, n - 1, order);
        InsertRanks(arms, n - 1, order);
      }
    }
  }

  /** Ranked, and listing only the first n arms. */
  predicate RankedWithin(arms: seq<Arm>, order: seq<nat>, n: nat) {
    Ranked(arms, order) && Indices(order, n)
  }

  lemma StillWithin(arms: seq<Arm>, order: seq<nat>, n: nat)
    requires RankedWithin(arms, order, n)
    ensures RankedWithin(arms, order, n + 1)
  {
  }

  // ---------------------------------------------------------------- what the counters count

  /** Samples among the first n draws that went to arm i; which is -1 for losses, 1 for gains, 0 for all. */
  function CountDraws(o: Outcomes, arm: Arm, log: seq<nat>, n: nat, i: nat, sign: int): nat
    requires n <= |log|
  {
    if n == 0 then 0
    else
      var r := o(arm.name, arm.gateRecent, n - 1);
      CountDraws(o, arm, log, n - 1, i, sign) +
      if log[n - 1] == i && (sign == 0 || (sign < 0 && r < 0) || (sign > 0 && r > 0)) then 1 else 0
  }

  /** log says which arm each draw went to; the arm's counters are exactly its own draws. */
  ghost predicate Tracks(o: Outcomes, arm: Arm, log: seq<nat>, i: nat) {
    && arm.n == CountDraws(o, arm, log, |log|, i, 0)
    && arm.b == CountDraws(o, arm, log, |log|, i, -1)
    && arm.c == CountDraws(o, arm, log, |log|, i, 1)
  }

  function SumN(arms: seq<Arm>, n: nat): nat
    requires n <= |arms|
  {
    if n == 0 then 0 else SumN(arms, n - 1) + arms[n - 1].n
  }

  function Drawn(arm: Arm, r: int): Arm {
    Arm(arm.name, arm.gateRecent, if r < 0 then arm.b + 1 else arm.b, if r > 0 then arm.c + 1 else arm.c,
        arm.n + 1, arm.alive)
  }

  lemma {:induction false} CountPrefix(o: Outcomes, a: Arm, b: Arm, s: seq<nat>, l: seq<nat>, n: nat, i: nat, sign: int)
    requires n <= |s| && s <= l && a.name == b.name && a.gateRecent == b.gateRecent
    ensures CountDraws(o, a, s, n, i, sign) == CountDraws(o, b, l, n, i, sign)
  {
    if n == 0 {
    } else {
      CountPrefix(o, a, b, s, l, n - 1, i, sign);
    }
  }

  /** One more draw, for arm j: arm i's counters keep tracking it. */
  lemma TracksDraw(o: Outcomes, arm: Arm, log: seq<nat>, i: nat, j: nat)
    requires Tracks(o, arm, log, i)
    ensures Tracks(o, if i == j then Drawn(arm, o(arm.name, arm.gateRecent, |log|)) else arm, log + [j], i)
  {
    var arm' := if i == j then Drawn(arm, o(arm.name, arm.gateRecent, |log|)) else arm;
    CountPrefix(o, arm, arm', log, log + [j], |log|, i, 0);
    CountPrefix(o, arm, arm', log, log + [j], |log|, i, -1);
    CountPrefix(o, arm, arm', log, log + [j], |log|, i, 1);
  }

  lemma {:induction false} SumUpdate(arms: seq<Arm>, n: nat, i: nat, arm: Arm)
    requires n <= |arms| && i < |arms|
    ensures SumN(arms[i := arm], n) == SumN(arms, n) + if i < n then arm.n - arms[i].n else 0
  {
    if n == 0 {
    } else {
      SumUpdate(arms, n - 1, i, arm);
    }
  }

  /** What holds of the counters and flags at every moment of a run. */
  ghost predicate Consistent(o: Outcomes, t: Test, arms: seq<Arm>, log: seq<nat>) {
    && SumN(arms, |arms|) == |log|
    && (forall i: nat :: i < |arms| ==> Tracks(o, arms[i], log, i))
    && (forall i: nat :: i < |arms| && !arms[i].alive ==> DecisivelyInferior(t, arms[i]))
  }

  predicate SameArms(arms: seq<Arm>, arms': seq<Arm>) {
    |arms'| == |arms| && forall i :: 0 <= i < |arms| ==>
      arms'[i].name == arms[i].name && arms'[i].gateRecent == arms[i].gateRecent
  }

  lemma ConsistentDraw(o: Outcomes, t: Test, arms: seq<Arm>, log: seq<nat>, j: nat)
    requires j < |arms| && arms[j].alive && Consistent(o, t, arms, log)
    ensures Consistent(o, t, arms[j := Drawn(arms[j], o(arms[j].name, arms[j].gateRecent, |log|))], log + [j])
  {
    var arm := Drawn(arms[j], o(arms[j].name, arms[j].gateRecent, |log|));
    SumUpdate(arms, |arms|, j, arm);
    var next := arms[j := arm];
    forall i: nat | i < |next| ensures Tracks(o, next[i], log + [j], i) {
      TracksDraw(o, arms[i], log, i, j);
    }
  }

  lemma ConsistentEliminate(o: Outcomes, t: Test, arms: seq<Arm>, log: seq<nat>, j: nat)
    requires j < |arms| && DecisivelyInferior(t, arms[j]) && Consistent(o, t, arms, log)
    ensures Consistent(o, t, arms[j := arms[j].(alive := false)], log)
  {
    var arm := arms[j].(alive := false);
    SumUpdate(arms, |arms|, j, arm);
    var next := arms[j := arm];
    forall i: nat | i < |next| ensures Tracks(o, next[i], log, i) {
      CountPrefix(o, arms[i], next[i], log, log, |log|, i, 0);
      CountPrefix(o, arms[i], next[i], log, log, |log|, i, -1);
      CountPrefix(o, arms[i], next[i], log, log, |log|, i, 1);
    }
  }

  // ---------------------------------------------------------------- the run

  // ---------------------------------------------------------------- the schedule

  /** Arm i drawn k more times. */
  function Extended(log: seq<nat>, i: nat, k: nat): seq<nat> {
    log + seq(k, _ => i)
  }

  /** How much of a batch the budget still allows after so many draws. */
  function Allowed(batch: nat, budget: nat, used: nat): nat {
    if used + batch <= budget then batch else if used <= budget then budget - used else 0
  }

  /** The draws after the first n arms of a round: a batch each, as far as the budget goes. */
  function RoundLog(log: seq<nat>, order: seq<nat>, batch: nat, budget: nat, n: nat): seq<nat>
    requires n <= |order|
  {
    if n == 0 then log
    else
      var before := RoundLog(log, order, batch, budget, n - 1);
      Extended(before, order[n - 1], Allowed(batch, budget, |before|))
  }

  /** The arms and the draws made so far. */
  datatype Snapshot = Snapshot(arms: seq<Arm>, log: seq<nat>)

  /** One round: every live arm, in order of preference, is drawn a batch of times as far as the budget
      goes, and dropped if its interval then lies below the tolerated loss. */
  ghost predicate RoundFollows(t: Test, budget: nat, batch: nat, x: Snapshot, y: Snapshot) {
    var order := Sorted(x.arms, |x.arms|, true);
    && SameArms(x.arms, y.arms)
    && y.log == RoundLog(x.log, order, batch, budget, |order|)
    && Swept(t, x.arms, y.arms)
  }

  /** Of the arms that were live exactly the decisively inferior ones are no more. */
  predicate Swept(t: Test, before: seq<Arm>, now: seq<Arm>)
    requires |before| == |now|
  {
    forall i :: 0 <= i < |now| ==> (now[i].alive <==> before[i].alive && !DecisivelyInferior(t, now[i]))
  }

  /** There is budget and a live arm left, and the front-runner may not be selected yet. */
  predicate GoesOn(t: Test, budget: nat, minSamples: int, x: Snapshot) {
    |x.log| < budget && AnyAlive(x.arms) && !TopCertified(t, minSamples, x.arms)
  }

  type Rule = (Snapshot, Snapshot) -> bool

  /** A round that takes place, and one step of an exploration. */
  ghost function RoundRule(o: Outcomes, t: Test, budget: nat, batch: nat, minSamples: int): Rule {
    (x: Snapshot, y: Snapshot) =>
      GoesOn(t, budget, minSamples, x) && RoundFollows(t, budget, batch, x, y) && Consistent(o, t, y.arms, y.log)
  }

  /** Step by step from x to y. */
  ghost predicate Leads(rule: Rule, trace: seq<Snapshot>, x: Snapshot, y: Snapshot) {
    && |trace| > 0 && trace[0] == x && trace[|trace| - 1] == y
    && forall r :: 1 <= r < |trace| ==> rule(trace[r - 1], trace[r])
  }

  lemma LeadsOn(rule: Rule, trace: seq<Snapshot>, x: Snapshot, y: Snapshot, z: Snapshot)
    requires Leads(rule, trace, x, y) && rule(y, z)
    ensures Leads(rule, trace + [z], x, z)
  {
  }

  /** Round after round from these arms, none of them drawn yet, until it goes on no more. */
  ghost predicate Explored(o: Outcomes, t: Test, budget: nat, batch: nat, minSamples: int, arms: seq<Arm>,
      end: Snapshot)
  {
    && !GoesOn(t, budget, minSamples, end)
    && exists trace :: Leads(RoundRule(o, t, budget, batch, minSamples), trace, Snapshot(arms, []), end)
  }

  /** Up to batch draws for arm i, as long as the budget lasts. */
  method SampleArm(o: Outcomes, t: Test, a: array<Arm>, i: nat, used: nat, budget: nat, batch: nat, ghost log: seq<nat>)
    returns (used': nat, ghost log': seq<nat>)
    requires i < a.Length && a[i].alive && used <= budget && |log| == used && Consistent(o, t, a[..], log)
    modifies a
    ensures used' == used + Allowed(batch, budget, used) <= budget
    ensures |log'| == used' && Consistent(o, t, a[..], log')
    ensures log' == Extended(log, i, used' - used)
    ensures SameArms(old(a[..]), a[..])
    ensures a[i].n == old(a[i].n) + (used' - used) && a[i].alive
    ensures forall k :: 0 <= k < a.Length && k != i ==> a[k] == old(a[k])
  {
    used', log' := used, log;
    var k := 0;
    while k < batch && used' < budget
      invariant k <= batch && used' == used + k <= budget && |log'| == used'
      invariant log' == Extended(log, i, k)
      invariant Consistent(o, t, a[..], log')
      invariant a[i].n == old(a[i].n) + k && a[i].alive
      invariant a[i].name == old(a[i].name) && a[i].gateRecent == old(a[i].gateRecent)
      invariant forall j :: 0 <= j < a.Length && j != i ==> a[j] == old(a[j])
    {
      ConsistentDraw(o, t, a[..], log', i);
      ghost var before := a[..];
      a[i] := Drawn(a[i], o(a[i].name, a[i].gateRecent, used'));
      assert a[..] == before[i := a[i]];
      used', log', k := used' + 1, log' + [i], k + 1;
    }
  }

  /** Drop an arm whose interval lies below the tolerated loss. */
  method EliminateIfInferior(o: Outcomes, t: Test, a: array<Arm>, i: nat, ghost log: seq<nat>)
    requires i < a.Length && Consistent(o, t, a[..], log)
    modifies a
    ensures Consistent(o, t, a[..], log)
    ensures a[i] == old(a[i]).(alive := old(a[i]).alive && !DecisivelyInferior(t, old(a[i])))
    ensures forall k :: 0 <= k < a.Length && k != i ==> a[k] == old(a[k])
  {
    if DecisivelyInferior(t, a[i]) {
      ConsistentEliminate(o, t, a[..], log, i);
      ghost var before := a[..];
      a[i] := a[i].(alive := false);
      assert a[..] == before[i := a[i]];
    }
  }

  /** One arm's part of a round. */
  method ProcessArm(o: Outcomes, t: Test, a: array<Arm>, i: nat, used: nat, budget: nat, batch: nat,
      ghost log: seq<nat>)
    returns (used': nat, ghost log': seq<nat>)
    requires i < a.Length && a[i].alive && used <= budget && |log| == used && Consistent(o, t, a[..], log)
    modifies a
    ensures used' == used + Allowed(batch, budget, used) <= budget
    ensures |log'| == used' && Consistent(o, t, a[..], log')
    ensures log' == Extended(log, i, Allowed(batch, budget, used))
    ensures a[i].alive <==> !DecisivelyInferior(t, a[i])
    ensures a[i].name == old(a[i].name) && a[i].gateRecent == old(a[i].gateRecent)
    ensures a[i].n == old(a[i].n) + (used' - used)
    ensures a[..] == old(a[..])[i := a[i]]
  {
    used', log' := SampleArm(o, t, a, i, used, budget, batch, log);
    EliminateIfInferior(o, t, a, i, log');
  }

  /** Every live arm has been sampled count times. */
  predicate LiveCounts(arms: seq<Arm>, count: nat) {
    forall i :: 0 <= i < |arms| && arms[i].alive ==> arms[i].n == count
  }

  predicate AnyAlive(arms: seq<Arm>) {
    exists i :: 0 <= i < |arms| && arms[i].alive
  }

  lemma LiveOrder(arms: seq<Arm>)
    ensures var order := Sorted(arms, |arms|, true);
      ListsLive(arms, order) && Ranked(arms, order)
  {
    var order := Sorted(arms, |arms|, true);
    SortedRanks(arms, |arms|, true);
    forall p | 0 <= p < |order| ensures arms[order[p]].alive {
      SortedHas(arms, |arms|, true, order[p]);
    }
    forall i: nat | i < |arms| && arms[i].alive ensures i in order {
      SortedHas(arms, |arms|, true, i);
    }
  }

  /** A listing of exactly the live arms, each once. */
  predicate ListsLive(arms: seq<Arm>, order: seq<nat>) {
    && Indices(order, |arms|)
    && (forall p, q :: 0 <= p < q < |order| ==> order[p] != order[q])
    && (forall p :: 0 <= p < |order| ==> arms[order[p]].alive)
    && (forall i: nat :: i < |arms| && arms[i].alive ==> i in order)
  }

  ghost predicate Drops(t: Test, dropped: Arm -> bool) {
    forall arm: Arm {:trigger DecisivelyInferior(t, arm)} :: dropped(arm) <==> DecisivelyInferior(t, arm)
  }

  /** Part way through a round: the first p listed arms have had their turn. */
  predicate PartWay(dropped: Arm -> bool, before: seq<Arm>, now: seq<Arm>, order: seq<nat>, p: nat, full: bool,
      count: nat)
    requires Indices(order, |before|) && p <= |order|
  {
    && SameArms(before, now)
    && (forall q :: 0 <= q < p ==> (now[order[q]].alive <==> !dropped(now[order[q]])))
    && (forall q :: p <= q < |order| ==> now[order[q]] == before[order[q]])
    && (full ==> forall q :: 0 <= q < p ==> now[order[q]].n == count)
    && (forall i :: 0 <= i < |now| && now[i].alive ==> before[i].alive)
  }

  lemma PartWayStep(dropped: Arm -> bool, before: seq<Arm>, now: seq<Arm>, order: seq<nat>, p: nat, full: bool,
      count: nat, batch: nat, k: nat, full': bool, arm: Arm)
    requires ListsLive(before, order) && LiveCounts(before, count) && p < |order|
    requires PartWay(dropped, before, now, order, p, full, count + batch)
    requires arm.alive <==> !dropped(arm)
    requires arm.name == now[order[p]].name && arm.gateRecent == now[order[p]].gateRecent
    requires arm.n == now[order[p]].n + k && (full' ==> full && k == batch)
    ensures PartWay(dropped, before, now[order[p] := arm], order, p + 1, full', count + batch)
  {
  }

  /** After all listed arms have had their turn every arm is live as it should be. */
  lemma PartWayDone(dropped: Arm -> bool, t: Test, before: seq<Arm>, now: seq<Arm>, order: seq<nat>, full: bool,
      count: nat)
    requires Drops(t, dropped)
    requires ListsLive(before, order) && PartWay(dropped, before, now, order, |order|, full, count)
    ensures Swept(t, before, now)
    ensures full ==> LiveCounts(now, count)
  {
    forall i: nat | i < |now| ensures now[i].alive <==> before[i].alive && !DecisivelyInferior(t, now[i]) {
      if before[i].alive {
        assert i in order;
        var q :| 0 <= q < |order| && order[q] == i;
      }
    }
  }

  /** The listed arms in turn. */
  method Sweep(o: Outcomes, t: Test, a: array<Arm>, order: seq<nat>, used: nat, budget: nat, batch: nat,
      ghost log: seq<nat>, ghost count: nat, ghost dropped: Arm -> bool)
    returns (used': nat, ghost log': seq<nat>)
    requires used < budget && batch >= 1 && |log| == used && Consistent(o, t, a[..], log) && Drops(t, dropped)
    requires ListsLive(a[..], order) && LiveCounts(a[..], count)
    modifies a
    ensures used <= used' <= budget && |log'| == used' && (|order| > 0 ==> used < used')
    ensures Consistent(o, t, a[..], log')
    ensures log' == RoundLog(log, order, batch, budget, |order|)
    ensures PartWay(dropped, old(a[..]), a[..], order, |order|, used' < budget, count + batch)
  {
    ghost var before := a[..];
    used', log' := used, log;
    for p := 0 to |order|
      invariant used <= used' <= budget && |log'| == used' && (p > 0 ==> used < used')
      invariant Consistent(o, t, a[..], log')
      invariant log' == RoundLog(log, order, batch, budget, p)
      invariant PartWay(dropped, before, a[..], order, p, used' < budget, count + batch)
    {
      ghost var now, earlier := a[..], used';
      used', log' := ProcessArm(o, t, a, order[p], used', budget, batch, log');
      PartWayStep(dropped, before, now, order, p, earlier < budget, count, batch, used' - earlier, used' < budget,
                  a[order[p]]);
    }
  }

  /** One round: every live arm, most aggressive first, gets up to batch draws and may be dropped. */
  method Round(o: Outcomes, t: Test, a: array<Arm>, used: nat, budget: nat, batch: nat,
      ghost log: seq<nat>, ghost count: nat)
    returns (used': nat, ghost log': seq<nat>)
    requires used < budget && batch >= 1 && |log| == used && Consistent(o, t, a[..], log)
    requires AnyAlive(a[..]) && LiveCounts(a[..], count)
    modifies a
    ensures used < used' <= budget && |log'| == used' && Consistent(o, t, a[..], log')
    ensures RoundFollows(t, budget, batch, Snapshot(old(a[..]), log), Snapshot(a[..], log'))
    ensures used' < budget ==> LiveCounts(a[..], count + batch)
  {
    ghost var before, dropped := a[..], (arm: Arm) => DecisivelyInferior(t, arm);
    var order := Sorted(a[..], a.Length, true);
    LiveOrder(before);
    used', log' := Sweep(o, t, a, order, used, budget, batch, log, count, dropped);
    PartWayDone(dropped, t, before, a[..], order, used' < budget, count + batch);
  }

  function IndexOfName(arms: seq<Arm>, name: string): (i: nat)
    ensures i <= |arms|
    ensures i < |arms| ==> arms[i].name == name
    ensures forall k :: 0 <= k < i ==> arms[k].name != name
  {
    if arms == [] || arms[0].name == name then 0 else 1 + IndexOfName(arms[1..], name)
  }

  /** The arm table: a repeated name keeps its first place and takes its last gate. */
  function Table(points: seq<(string, int)>, n: nat): seq<Arm>
    requires n <= |points|
  {
    if n == 0 then []
    else
      var arms, arm := Table(points, n - 1), Arm(points[n - 1].0, points[n - 1].1, 0, 0, 0, true);
      var i := IndexOfName(arms, arm.name);
      if i < |arms| then arms[i := arm] else arms + [arm]
  }

  lemma {:induction false} TableFresh(points: seq<(string, int)>, n: nat)
    requires n <= |points|
    ensures forall i :: 0 <= i < |Table(points, n)| ==>
      var a := Table(points, n)[i]; a.b == a.c == a.n == 0 && a.alive
    ensures forall i, j :: 0 <= i < j < |Table(points, n)| ==> Table(points, n)[i].name != Table(points, n)[j].name
    ensures SumN(Table(points, n), |Table(points, n)|) == 0
  {
    if n == 0 {
    } else {
      TableFresh(points, n - 1);
    }
    SumOfZeros(Table(points, n), |Table(points, n)|);
  }

  lemma {:induction false} SumOfZeros(arms: seq<Arm>, n: nat)
    requires n <= |arms| && forall i :: 0 <= i < |arms| ==> arms[i].n == 0
    ensures SumN(arms, n) == 0
  {
    if n == 0 {
    } else {
      SumOfZeros(arms, n - 1);
    }
  }

  /** Arm i is certified and preferred to every other certified arm. */
  predicate BestCertified(t: Test, minSamples: int, arms: seq<Arm>, i: nat) {
    i < |arms| && Certified(t, minSamples, arms[i]) &&
    forall j: nat :: j < |arms| && j != i && Certified(t, minSamples, arms[j]) ==> Before(arms, i, j)
  }

  lemma FirstCertifiedIsBest(t: Test, minSamples: int, arms: seq<Arm>, p: nat)
    requires var order := Sorted(arms, |arms|, false);
      p < |order| && Certified(t, minSamples, arms[order[p]])
      && forall q :: 0 <= q < p ==> !Certified(t, minSamples, arms[order[q]])
    ensures BestCertified(t, minSamples, arms, Sorted(arms, |arms|, false)[p])
  {
    var order := Sorted(arms, |arms|, false);
    SortedRanks(arms, |arms|, false);
    forall j: nat | j < |arms| && j != order[p] && Certified(t, minSamples, arms[j]) ensures Before(arms, order[p], j) {
      SortedHas(arms, |arms|, false, j);
      var q :| 0 <= q < |order| && order[q] == j;
      assert q > p;
    }
  }

  /** A dropped arm is never certified, so a certified live front-runner is the best of all. */
  lemma CertifiedTopIsBest(o: Outcomes, t: Test, minSamples: int, arms: seq<Arm>, log: seq<nat>)
    requires Sound(t) && Consistent(o, t, arms, log)
    requires var order := Sorted(arms, |arms|, true); |order| > 0 && Certified(t, minSamples, arms[order[0]])
    ensures BestCertified(t, minSamples, arms, Sorted(arms, |arms|, true)[0])
  {
    var order := Sorted(arms, |arms|, true);
    LiveOrder(arms);
    forall j: nat | j < |arms| && j != order[0] && Certified(t, minSamples, arms[j]) ensures Before(arms, order[0], j) {
      IntervalOrdered(t, arms[j]);
      assert j in order;
      var q :| 0 <= q < |order| && order[q] == j;
    }
  }

  lemma BestIsUnique(t: Test, minSamples: int, arms: seq<Arm>, i: nat, j: nat)
    requires BestCertified(t, minSamples, arms, i) && BestCertified(t, minSamples, arms, j)
    ensures i == j
  {
  }

  /** The first certified arm in order of preference, if any. */
  method Pick(t: Test, minSamples: int, arms: seq<Arm>) returns (best: Option<nat>)
    ensures match best
      case Some(i) => BestCertified(t, minSamples, arms, i)
      case None => forall i: nat :: i < |arms| ==> !Certified(t, minSamples, arms[i])
  {
    var order := Sorted(arms, |arms|, false);
    for p := 0 to |order|
      invariant forall q :: 0 <= q < p ==> !Certified(t, minSamples, arms[order[q]])
    {
      if Certified(t, minSamples, arms[order[p]]) {
        FirstCertifiedIsBest(t, minSamples, arms, p);
        return Some(order[p]);
      }
    }
    best := None;
    forall i: nat | i < |arms| ensures !Certified(t, minSamples, arms[i]) {
      SortedHas(arms, |arms|, false, i);
      var q :| 0 <= q < |order| && order[q] == i;
    }
  }

  /** The live front-runner may be selected already. */
  predicate TopCertified(t: Test, minSamples: int, arms: seq<Arm>) {
    var order := Sorted(arms, |arms|, true);
    |order| > 0 && Certified(t, minSamples, arms[order[0]])
  }

  lemma NotTopAtFirst(t: Test, minSamples: int, arms: seq<Arm>)
    requires LiveCounts(arms, 0)
    ensures !TopCertified(t, minSamples, arms)
  {
    LiveOrder(arms);
  }

  /** Rounds until the budget is spent, no arm is left, or the front-runner is certified. */
  method Explore(o: Outcomes, t: Test, a: array<Arm>, budget: nat, batch: nat, minSamples: int, ghost rule: Rule)
    returns (used: nat, ghost log: seq<nat>, ghost rounds: nat, ghost trace: seq<Snapshot>)
    requires batch >= 1 && Consistent(o, t, a[..], []) && LiveCounts(a[..], 0)
    requires rule == RoundRule(o, t, budget, batch, minSamples)
    modifies a
    ensures used <= budget && |log| == used && Consistent(o, t, a[..], log)
    ensures SameArms(old(a[..]), a[..])
    ensures Leads(rule, trace, Snapshot(old(a[..]), []), Snapshot(a[..], log))
    ensures !GoesOn(t, budget, minSamples, Snapshot(a[..], log))
    ensures used < budget ==> LiveCounts(a[..], rounds * batch)
  {
    used, log, rounds := 0, [], 0;
    ghost var count := 0;
    trace := [Snapshot(a[..], [])];
    NotTopAtFirst(t, minSamples, a[..]);
    while used < budget && exists i :: 0 <= i < a.Length && a[i].alive
      invariant used <= budget && |log| == used && Consistent(o, t, a[..], log)
      invariant SameArms(old(a[..]), a[..])
      invariant Leads(rule, trace, Snapshot(old(a[..]), []), Snapshot(a[..], log))
      invariant !TopCertified(t, minSamples, a[..])
      invariant count == rounds * batch
      invariant used < budget ==> LiveCounts(a[..], count)
      decreases budget - used
    {
      ghost var before := Snapshot(a[..], log);
      used, log := Round(o, t, a, used, budget, batch, log, count);
      LeadsOn(rule, trace, Snapshot(old(a[..]), []), before, Snapshot(a[..], log));
      trace := trace + [Snapshot(a[..], log)];
      count, rounds := count + batch, rounds + 1;
      if TopCertified(t, minSamples, a[..]) {
        break;
      }
    }
  }

  datatype BanditResult = BanditResult(selected: Option<nat>, samplesUsed: nat, arms: seq<Arm>)

  /** The selection is safe and bounded.  The arms are those of an exploration that stops as soon as it
      may, and its draws are all accounted for; a selected arm is live,
      certified, and the most aggressive such arm; nothing is selected (fail safe) exactly when no arm
      is certified; and when sampling stopped before the budget with arms left, it is the front-runner
      that stopped it. */
  method SelectOperatingPoint(points: seq<(string, int)>, o: Outcomes, t: Test, budget: nat, batch: nat,
      minSamples: int)
    returns (r: BanditResult)
    requires Sound(t) && batch >= 1
    ensures SameArms(Table(points, |points|), r.arms) && r.samplesUsed <= budget
    ensures exists log :: |log| == r.samplesUsed && Consistent(o, t, r.arms, log)
    ensures exists log: seq<nat> :: (|log| == r.samplesUsed
      && Explored(o, t, budget, batch, minSamples, Table(points, |points|), Snapshot(r.arms, log)))
    ensures r.selected.None? <==> forall i: nat :: i < |r.arms| ==> !Certified(t, minSamples, r.arms[i])
    ensures r.selected.Some? ==>
      BestCertified(t, minSamples, r.arms, r.selected.value) && r.arms[r.selected.value].alive
    ensures r.samplesUsed < budget && AnyAlive(r.arms) ==>
      TopCertified(t, minSamples, r.arms) && r.selected == Some(Sorted(r.arms, |r.arms|, true)[0])
    ensures r.samplesUsed < budget ==> exists count :: LiveCounts(r.arms, count)
  {
    var arms, used;
    ghost var log;
    arms, used, log := SampleAll(points, o, t, budget, batch, minSamples);
    var selected := Pick(t, minSamples, arms);
    Selected(o, t, minSamples, arms, log, selected);
    r := BanditResult(selected, used, arms);
  }

  method SampleAll(points: seq<(string, int)>, o: Outcomes, t: Test, budget: nat, batch: nat, minSamples: int)
    returns (arms: seq<Arm>, used: nat, ghost log: seq<nat>)
    requires batch >= 1
    ensures used <= budget && |log| == used && Consistent(o, t, arms, log)
    ensures SameArms(Table(points, |points|), arms)
    ensures Explored(o, t, budget, batch, minSamples, Table(points, |points|), Snapshot(arms, log))
    ensures used == budget || !AnyAlive(arms) || TopCertified(t, minSamples, arms)
    ensures used < budget ==> exists count :: LiveCounts(arms, count)
  {
    var table := Table(points, |points|);
    var a := new Arm[|table|](i requires 0 <= i < |table| => table[i]);
    assert a[..] == table;
    StartConsistent(points, o, t);
    ghost var rounds, trace;
    used, log, rounds, trace := Explore(o, t, a, budget, batch, minSamples,
                                        RoundRule(o, t, budget, batch, minSamples));
    arms := a[..];
  }

  lemma StartConsistent(points: seq<(string, int)>, o: Outcomes, t: Test)
    ensures Consistent(o, t, Table(points, |points|), []) && LiveCounts(Table(points, |points|), 0)
  {
    TableFresh(points, |points|);
  }

  /** What Pick chooses is alive, and is the front-runner if that may be selected already. */
  lemma Selected(o: Outcomes, t: Test, minSamples: int, arms: seq<Arm>, log: seq<nat>, selected: Option<nat>)
    requires Sound(t) && Consistent(o, t, arms, log)
    requires match selected
      case Some(i) => BestCertified(t, minSamples, arms, i)
      case None => forall i: nat :: i < |arms| ==> !Certified(t, minSamples, arms[i])
    ensures selected.Some? ==> selected.value < |arms| && arms[selected.value].alive
    ensures TopCertified(t, minSamples, arms) ==> selected == Some(Sorted(arms, |arms|, true)[0])
  {
    if selected.Some? {
      IntervalOrdered(t, arms[selected.value]);
    }
    if TopCertified(t, minSamples, arms) {
      CertifiedTopIsBest(o, t, minSamples, arms, log);
      BestIsUnique(t, minSamples, arms, selected.value, Sorted(arms, |arms|, true)[0]);
    }
  }
}
