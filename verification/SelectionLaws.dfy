/**
  What a certificate means for the draws and runs behind it (distil/calibrate.py, with the interval of
  distil/certify/stats.py): losses count against an arm, gains for it.
*/
module SelectionLaws {
  import opened Wrappers
  import opened Counting
  import opened Bandit
  import opened Calibration

  // ---------------------------------------------------------------- the counters

  /** Certified: enough samples, and gains less losses per sample, less z standard errors, above the
      tolerated drop. */
  lemma CertifiedIff(t: Test, minSamples: int, a: Arm)
    ensures Certified(t, minSamples, a) <==>
      && a.n > 0 && a.n >= minSamples
      && (a.c as real - a.b as real) / a.n as real - t.z * t.se(a.b, a.c, a.n) > -t.margin
  {
  }

  /** Dropped: the same, plus z standard errors, below it. */
  lemma DroppedIff(t: Test, a: Arm)
    requires a.n > 0
    ensures DecisivelyInferior(t, a) <==>
      (a.c as real - a.b as real) / a.n as real + t.z * t.se(a.b, a.c, a.n) < -t.margin
  {
  }

  lemma MultiplyOut(x: real, n: nat, y: real)
    requires n > 0
    ensures x / n as real > y <==> x > y * n as real
    ensures x / n as real < y <==> x < y * n as real
  {
    assert x / n as real * n as real == x;
  }

  /** In a certified arm gains less losses exceed the tolerated drop of its samples. */
  lemma CertifiedIsSafe(t: Test, minSamples: int, a: Arm)
    requires Sound(t) && Certified(t, minSamples, a)
    ensures a.n > 0 && a.n >= minSamples
    ensures a.c as real - a.b as real > -t.margin * a.n as real
  {
    CertifiedIff(t, minSamples, a);
    assert t.z * t.se(a.b, a.c, a.n) >= 0.0;
    MultiplyOut(a.c as real - a.b as real, a.n, -t.margin);
  }

  /** In a dropped arm losses less gains do. */
  lemma DroppedIsWorse(t: Test, a: Arm)
    requires Sound(t) && DecisivelyInferior(t, a) && a.n > 0
    ensures a.b as real - a.c as real > t.margin * a.n as real
  {
    DroppedIff(t, a);
    assert t.z * t.se(a.b, a.c, a.n) >= 0.0;
    MultiplyOut(a.c as real - a.b as real, a.n, -t.margin);
  }

  // ---------------------------------------------------------------- the draws

  /** The draws that went to arm i, those of them that lost, and those that gained. */
  function Draws(log: seq<nat>, i: nat): set<nat> {
    Positions((k: nat) => k < |log| && log[k] == i, 0, |log|)
  }

  function LossDraws(o: Outcomes, arm: Arm, log: seq<nat>, i: nat): set<nat> {
    Positions((k: nat) => k < |log| && log[k] == i && o(arm.name, arm.gateRecent, k) < 0, 0, |log|)
  }

  function GainDraws(o: Outcomes, arm: Arm, log: seq<nat>, i: nat): set<nat> {
    Positions((k: nat) => k < |log| && log[k] == i && o(arm.name, arm.gateRecent, k) > 0, 0, |log|)
  }

  lemma {:induction false} CountIs(o: Outcomes, arm: Arm, log: seq<nat>, n: nat, i: nat, sign: int, f: nat -> bool)
    requires n <= |log|
    requires forall k: nat :: k < n ==>
      (f(k) <==> log[k] == i && (sign == 0 || (sign < 0 && o(arm.name, arm.gateRecent, k) < 0)
                                 || (sign > 0 && o(arm.name, arm.gateRecent, k) > 0)))
    ensures CountDraws(o, arm, log, n, i, sign) == |Positions(f, 0, n)|
  {
    if n == 0 {
      assert Positions(f, 0, 0) == {};
    } else {
      CountIs(o, arm, log, n - 1, i, sign, f);
      PositionsGrow(f, 0, n - 1);
    }
  }

  /** The counters of every arm are the numbers of its draws. */
  lemma CountersAreDraws(o: Outcomes, arm: Arm, log: seq<nat>, i: nat)
    requires Tracks(o, arm, log, i)
    ensures arm.n == |Draws(log, i)| && arm.b == |LossDraws(o, arm, log, i)| && arm.c == |GainDraws(o, arm, log, i)|
  {
    CountIs(o, arm, log, |log|, i, 0, (k: nat) => k < |log| && log[k] == i);
    CountIs(o, arm, log, |log|, i, -1, (k: nat) => k < |log| && log[k] == i && o(arm.name, arm.gateRecent, k) < 0);
    CountIs(o, arm, log, |log|, i, 1, (k: nat) => k < |log| && log[k] == i && o(arm.name, arm.gateRecent, k) > 0);
  }

  /** What a run selected, in terms of what was drawn: the arm has enough draws, and in them gains less
      losses exceed the tolerated drop; no arm that keeps fewer turns is certified, nor one listed
      earlier that keeps as many. */
  lemma SelectedIsSafe(o: Outcomes, t: Test, minSamples: int, arms: seq<Arm>, log: seq<nat>, i: nat)
    requires Sound(t) && Consistent(o, t, arms, log) && BestCertified(t, minSamples, arms, i)
    ensures var draws, losses := |Draws(log, i)|, |LossDraws(o, arms[i], log, i)|;
      var gains := |GainDraws(o, arms[i], log, i)|;
      && draws > 0 && draws >= minSamples
      && gains as real - losses as real > -t.margin * draws as real
    ensures forall j: nat :: j < |arms| && Certified(t, minSamples, arms[j]) ==>
      arms[i].gateRecent < arms[j].gateRecent || (arms[i].gateRecent == arms[j].gateRecent && i <= j)
  {
    CertifiedIsSafe(t, minSamples, arms[i]);
    CountersAreDraws(o, arms[i], log, i);
  }

  /** What a run dropped, in terms of what was drawn. */
  lemma DroppedIsInferior(o: Outcomes, t: Test, arms: seq<Arm>, log: seq<nat>, i: nat)
    requires Sound(t) && Consistent(o, t, arms, log) && i < |arms| && !arms[i].alive && Draws(log, i) != {}
    ensures var draws, losses := |Draws(log, i)|, |LossDraws(o, arms[i], log, i)|;
      var gains := |GainDraws(o, arms[i], log, i)|;
      losses as real - gains as real > t.margin * draws as real
  {
    CountersAreDraws(o, arms[i], log, i);
    DroppedIsWorse(t, arms[i]);
  }

  // ---------------------------------------------------------------- the arms

  predicate Named(points: seq<(string, int)>, n: nat, name: string, k: nat) {
    k < n <= |points| && points[k].0 == name
  }

  /** Point k is the last, or the first, of the first n with its name. */
  predicate LastNamed(points: seq<(string, int)>, n: nat, name: string, k: nat) {
    Named(points, n, name, k) && forall j :: k < j < n ==> points[j].0 != name
  }

  predicate FirstNamed(points: seq<(string, int)>, n: nat, name: string, k: nat) {
    Named(points, n, name, k) && forall j :: 0 <= j < k ==> points[j].0 != name
  }

  /** The arm stands for the points of its name: it has the gate of the last of them. */
  ghost predicate StandsFor(points: seq<(string, int)>, n: nat, a: Arm) {
    exists k: nat :: LastNamed(points, n, a.name, k) && a.gateRecent == points[k].1
  }

  predicate Listed(arms: seq<Arm>, name: string) {
    exists i :: 0 <= i < |arms| && arms[i].name == name
  }

  lemma StandsForNext(points: seq<(string, int)>, n: nat, a: Arm)
    requires n < |points| && StandsFor(points, n, a) && points[n].0 != a.name
    ensures StandsFor(points, n + 1, a)
  {
    var k: nat :| LastNamed(points, n, a.name, k) && a.gateRecent == points[k].1;
    assert LastNamed(points, n + 1, a.name, k);
  }

  /** After one more point its arm is in the table, in the place of an arm of its name or at the end. */
  ghost predicate PutArm(before: seq<Arm>, after: seq<Arm>, x: nat, arm: Arm) {
    && x <= |before| && after == (if x < |before| then before[x := arm] else before + [arm])
    && (x < |before| ==> before[x].name == arm.name)
    && forall k :: 0 <= k < |before| && k != x ==> before[k].name != arm.name
  }

  lemma TableStep(points: seq<(string, int)>, n: nat) returns (x: nat)
    requires n < |points|
    ensures PutArm(Table(points, n), Table(points, n + 1), x, Arm(points[n].0, points[n].1, 0, 0, 0, true))
  {
    TableFresh(points, n);
    x := IndexOfName(Table(points, n), points[n].0);
  }

  /** Every arm stands for the points of its name, every name has an arm, and the arms are in the order
      of the first points with their names. */
  ghost predicate IsTable(points: seq<(string, int)>, n: nat, arms: seq<Arm>)
    requires n <= |points|
  {
    && (forall i :: 0 <= i < |arms| ==> StandsFor(points, n, arms[i]))
    && (forall k :: 0 <= k < n ==> Listed(arms, points[k].0))
    && (forall i, j :: 0 <= i < j < |arms| ==> FirstBefore(points, n, arms[i].name, arms[j].name))
  }

  ghost predicate FirstBefore(points: seq<(string, int)>, n: nat, x: string, y: string) {
    forall p: nat, q: nat :: FirstNamed(points, n, x, p) && FirstNamed(points, n, y, q) ==> p < q
  }

  lemma ListedStep(before: seq<Arm>, after: seq<Arm>, x: nat, arm: Arm, name: string)
    requires PutArm(before, after, x, arm) && (Listed(before, name) || name == arm.name)
    ensures Listed(after, name)
  {
    assert after[x] == arm;
    if name != arm.name {
      var i :| 0 <= i < |before| && before[i].name == name;
      assert after[i].name == name;
    }
  }

  lemma IsTableStep(points: seq<(string, int)>, n: nat, before: seq<Arm>, after: seq<Arm>, x: nat, arm: Arm)
    requires n < |points| && PutArm(before, after, x, arm) && arm.name == points[n].0 && arm.gateRecent == points[n].1
    requires IsTable(points, n, before)
    ensures IsTable(points, n + 1, after)
  {
    assert LastNamed(points, n + 1, arm.name, n);
    forall i | 0 <= i < |after| ensures StandsFor(points, n + 1, after[i]) {
      if i != x {
        StandsForNext(points, n, before[i]);
      }
    }
    forall k | 0 <= k < n + 1 ensures Listed(after, points[k].0) {
      ListedStep(before, after, x, arm, points[k].0);
    }
    forall i, j | 0 <= i < j < |after| ensures FirstBefore(points, n + 1, after[i].name, after[j].name) {
      OrderStep(points, n, before, after, x, arm, i, j);
    }
  }

  lemma OrderStep(points: seq<(string, int)>, n: nat, before: seq<Arm>, after: seq<Arm>, x: nat, arm: Arm,
                  i: nat, j: nat)
    requires n < |points| && PutArm(before, after, x, arm) && arm.name == points[n].0
    requires IsTable(points, n, before) && i < j < |after|
    ensures FirstBefore(points, n + 1, after[i].name, after[j].name)
  {
    assert after[i].name == before[i].name;
    var m := n + 1;
    forall p: nat, q: nat | FirstNamed(points, m, after[i].name, p) && FirstNamed(points, m, after[j].name, q)
      ensures p < q
    {
      FirstIsBefore(points, n, before, i, p);
      if j < |before| {
        assert after[j].name == before[j].name;
        FirstIsBefore(points, n, before, j, q);
        assert FirstBefore(points, n, before[i].name, before[j].name);
      } else {
        NewNameIsLast(points, n, before, arm.name, q);
      }
    }
  }

  lemma NewNameIsLast(points: seq<(string, int)>, n: nat, before: seq<Arm>, name: string, q: nat)
    requires n < |points| && IsTable(points, n, before) && !Listed(before, name)
    requires Named(points, n + 1, name, q)
    ensures q == n
  {
  }

  lemma FirstIsBefore(points: seq<(string, int)>, n: nat, before: seq<Arm>, i: nat, p: nat)
    requires n < |points| && IsTable(points, n, before) && i < |before|
    requires FirstNamed(points, n + 1, before[i].name, p)
    ensures FirstNamed(points, n, before[i].name, p)
  {
    assert StandsFor(points, n, before[i]);
    var k: nat :| LastNamed(points, n, before[i].name, k);
    assert !(k < p);
  }

  /** The arms are the points by name, each with the last gate of its name. */
  lemma {:induction false} TableStands(points: seq<(string, int)>, n: nat)
    requires n <= |points|
    ensures IsTable(points, n, Table(points, n))
  {
    if n == 0 {
    } else {
      TableStands(points, n - 1);
      var x := TableStep(points, n - 1);
      var arm := Arm(points[n - 1].0, points[n - 1].1, 0, 0, 0, true);
      IsTableStep(points, n - 1, Table(points, n - 1), Table(points, n), x, arm);
    }
  }

  // ---------------------------------------------------------------- complete paired runs

  /** The operating point that two complete runs make. */
  function PointOf(name: string, gateRecent: int, baseline: map<string, bool>, candidate: map<string, bool>): Arm {
    var (losses, gains, n) := PairedDiscordant(baseline, candidate);
    Arm(name, gateRecent, losses, gains, n, true)
  }

  /** A point the static calibration selects: over the instances that both runs scored, the candidate's
      passes less the baseline's exceed the tolerated drop. */
  lemma CalibratedIsSafe(t: Test, name: string, gateRecent: int, baseline: map<string, bool>,
                         candidate: map<string, bool>)
    requires Sound(t) && NonInferior(t, PointOf(name, gateRecent, baseline, candidate))
    ensures var both := set i | i in baseline && i in candidate;
      var passed, passedBefore := set i | i in both && candidate[i], set i | i in both && baseline[i];
      && |both| > 0
      && |passed| as real - |passedBefore| as real > -t.margin * |both| as real
  {
    var a := PointOf(name, gateRecent, baseline, candidate);
    CertifiedIsSafe(t, 0, a);
    DiscordantIsPassDifference(baseline, candidate);
    assert (set i | i in baseline && i in candidate) == Paired(baseline, candidate);
    assert (set i | i in Paired(baseline, candidate) && candidate[i]) == SolvedPaired(candidate, baseline);
    assert (set i | i in Paired(baseline, candidate) && baseline[i]) == SolvedPaired(baseline, candidate);
  }
}
