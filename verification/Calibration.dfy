/**
  Static calibration over complete paired runs (distil/calibrate.py, `paired_discordant` and
  `calibrate_operating_point`), and how its choice relates to the bandit's.
*/
module Calibration {
  import opened Wrappers
  import opened Bandit

  /** Instances scored by both conditions. */
  function Paired(baseline: map<string, bool>, candidate: map<string, bool>): set<string> {
    baseline.Keys * candidate.Keys
  }

  function Losses(baseline: map<string, bool>, candidate: map<string, bool>): set<string> {
    set i | i in baseline && i in candidate && baseline[i] && !candidate[i]
  }

  function SolvedPaired(scores: map<string, bool>, other: map<string, bool>): set<string> {
    set i | i in scores && i in other && scores[i]
  }

  function PairedDiscordant(baseline: map<string, bool>, candidate: map<string, bool>): (nat, nat, nat) {
    (|Losses(baseline, candidate)|, |Losses(candidate, baseline)|, |Paired(baseline, candidate)|)
  }

  /** Only the discordant instances move the pass rate: gains less losses is the candidate's passes
      less the baseline's, over the instances both scored. */
  lemma DiscordantIsPassDifference(baseline: map<string, bool>, candidate: map<string, bool>)
    ensures var (losses, gains, n) := PairedDiscordant(baseline, candidate);
      && gains - losses == |SolvedPaired(candidate, baseline)| - |SolvedPaired(baseline, candidate)|
      && losses + gains <= n
  {
    var both := SolvedPaired(baseline, candidate) * SolvedPaired(candidate, baseline);
    assert SolvedPaired(baseline, candidate) == both + Losses(baseline, candidate);
    assert SolvedPaired(candidate, baseline) == both + Losses(candidate, baseline);
    var discordant := Losses(baseline, candidate) + Losses(candidate, baseline);
    assert discordant <= Paired(baseline, candidate);
    SubsetSize(discordant, Paired(baseline, candidate));
  }

  lemma {:induction false} SubsetSize(a: set<string>, b: set<string>)
    requires a <= b
    ensures |a| <= |b|
  {
    if a == {} {
    } else {
      var x :| x in a;
      SubsetSize(a - {x}, b - {x});
    }
  }

  /** The most aggressive non-inferior point; none exactly when no point is non-inferior. */
  method CalibrateOperatingPoint(t: Test, points: seq<Arm>) returns (selected: Option<nat>, verdicts: seq<bool>)
    ensures match selected
      case Some(i) => BestCertified(t, 0, points, i)
      case None => forall i: nat :: i < |points| ==> !NonInferior(t, points[i])
    ensures |verdicts| == |points| == |Sorted(points, |points|, false)|
    ensures forall p :: 0 <= p < |verdicts| ==>
      verdicts[p] == NonInferior(t, points[Sorted(points, |points|, false)[p]])
  {
    var ordered := Sorted(points, |points|, false);
    SortedLength(points, |points|);
    selected, verdicts := None, [];
    ghost var at := 0;
    for p := 0 to |ordered|
      invariant |verdicts| == p && forall q :: 0 <= q < p ==> verdicts[q] == NonInferior(t, points[ordered[q]])
      invariant match selected
        case Some(i) => at < p && i == ordered[at] && verdicts[at] && forall q :: 0 <= q < at ==> !verdicts[q]
        case None => forall q :: 0 <= q < p ==> !verdicts[q]
    {
      verdicts := verdicts + [NonInferior(t, points[ordered[p]])];
      if selected.None? && verdicts[p] {
        selected, at := Some(ordered[p]), p;
      }
    }
    if selected.Some? {
      FirstCertifiedIsBest(t, 0, points, at);
    } else {
      forall i: nat | i < |points| ensures !NonInferior(t, points[i]) {
        SortedHas(points, |points|, false, i);
        var q :| 0 <= q < |ordered| && ordered[q] == i;
        assert !verdicts[q];
      }
    }
  }

  lemma {:induction false} SortedLength(arms: seq<Arm>, n: nat)
    requires n <= |arms|
    ensures |Sorted(arms, n, false)| == n
  {
    if n == 0 {
    } else {
      SortedLength(arms, n - 1);
    }
  }

  /** The preferred point among those with enough samples, if any. */
  ghost predicate PickOf(t: Test, minSamples: int, arms: seq<Arm>, pick: Option<nat>) {
    match pick
    case Some(i) => BestCertified(t, minSamples, arms, i)
    case None => forall i: nat :: i < |arms| ==> !Certified(t, minSamples, arms[i])
  }

  /** On the same counters the bandit and the static calibration agree exactly when the static choice
      has at least the bandit's minimum of samples, or there is none. */
  lemma BanditPicksStaticChoiceIff(t: Test, minSamples: int, arms: seq<Arm>, offline: Option<nat>, online: Option<nat>)
    requires PickOf(t, 0, arms, offline) && PickOf(t, minSamples, arms, online)
    ensures online == offline <==> offline.None? || arms[offline.value].n >= minSamples
  {
    if offline.Some? && arms[offline.value].n >= minSamples {
      assert Certified(t, minSamples, arms[offline.value]);
      BestIsUnique(t, minSamples, arms, offline.value, online.value);
    }
  }
}
