/**
  Prefetching with a pool of workers (benchmarks/prove.py, `prefetch` with more than one worker) as a
  state machine.  Workers finish the pending calls in any order; the main thread stores the answers
  one at a time, in the order of the pending requests, as they become available.
*/
module PrefetchPool {
  import opened DecisionCache

  /** The work at hand: a runner, the requests with their keys, the positions of those to be asked,
      and the store and call count at the start. */
  datatype Job<!B> = Job(runner: Runner<B>, start: Progress, requests: seq<Request<B>>, keys: seq<string>,
    todo: seq<nat>)

  ghost predicate Wellformed<B>(job: Job<B>) {
    && |job.keys| == |job.requests|
    && job.todo == Pending(job.start.store.Keys, job.keys, |job.keys|)
  }

  /** Answers by position in todo, and how many of them have been stored. */
  datatype State = State(store: Store, calls: nat, answers: map<nat, string>, stored: nat)

  datatype Step = Work(j: nat) | Consume

  function Initial<B>(job: Job<B>): State {
    State(job.start.store, job.start.calls, map[], 0)
  }

  predicate Enabled<B>(job: Job<B>, s: State, step: Step) {
    match step
    case Work(j) => j < |job.todo| && j !in s.answers
    case Consume => s.stored < |job.todo| && s.stored in s.answers
  }

  function KeyAt<B>(job: Job<B>, j: nat): string
    requires Wellformed(job) && j < |job.todo|
  {
    job.keys[job.todo[j]]
  }

  function Ask<B>(job: Job<B>, call: nat, j: nat): string
    requires Wellformed(job) && j < |job.todo|
  {
    var r := job.requests[job.todo[j]];
    job.runner(call, r.blocks, r.restore)
  }

  function Next<B>(job: Job<B>, s: State, step: Step): State
    requires Wellformed(job) && Enabled(job, s, step)
  {
    match step
    case Work(j) => s.(calls := s.calls + 1, answers := s.answers[j := Ask(job, s.calls, j)])
    case Consume => s.(store := s.store[KeyAt(job, s.stored) := s.answers[s.stored]], stored := s.stored + 1)
  }

  /** A run: each state follows from the one before by an enabled step. */
  ghost predicate IsRun<B>(job: Job<B>, states: seq<State>)
    requires Wellformed(job)
  {
    && |states| > 0 && states[0] == Initial(job)
    && forall i :: 0 <= i < |states| - 1 ==> Follows(job, states[i], states[i + 1])
  }

  ghost predicate Follows<B>(job: Job<B>, s: State, s': State)
    requires Wellformed(job)
  {
    exists step :: Enabled(job, s, step) && s' == Next(job, s, step)
  }

  predicate Finished<B>(job: Job<B>, s: State) {
    s.stored == |job.todo|
  }

  // ---------------------------------------------------------------- what every step keeps

  /** Position j was answered by one of the calls made so far. */
  ghost predicate Answered<B>(job: Job<B>, s: State, j: nat)
    requires Wellformed(job)
  {
    && j < |job.todo| && j in s.answers
    && exists c: nat :: job.start.calls <= c < s.calls && s.answers[j] == Ask(job, c, j)
  }

  /** Every stored position's key holds its answer. */
  ghost predicate Holds<B>(job: Job<B>, s: State, j: nat)
    requires Wellformed(job)
  {
    j < |job.todo| && j in s.answers && KeyAt(job, j) in s.store && s.store[KeyAt(job, j)] == s.answers[j]
  }

  ghost predicate Inv<B>(job: Job<B>, s: State)
    requires Wellformed(job)
  {
    && s.stored <= |job.todo|
    && s.calls == job.start.calls + |s.answers.Keys|
    && (forall j :: j in s.answers.Keys ==> Answered(job, s, j))
    && (forall j: nat :: j < s.stored ==> Holds(job, s, j))
    && (forall k :: k in job.start.store ==> k in s.store && s.store[k] == job.start.store[k])
    && (forall k :: k in s.store ==>
          k in job.start.store || exists j: nat :: j < s.stored && j < |job.todo| && KeyAt(job, j) == k)
  }

  lemma KeysAreNew<B>(job: Job<B>, j: nat)
    requires Wellformed(job) && j < |job.todo|
    ensures KeyAt(job, j) !in job.start.store
    ensures forall i: nat :: i < j ==> KeyAt(job, i) != KeyAt(job, j)
  {
    PendingExactlyNew(job.start.store.Keys, job.keys, |job.keys|);
    assert job.todo[j] in job.todo;
    forall i: nat | i < j ensures KeyAt(job, i) != KeyAt(job, j) {
      assert job.todo[i] < job.todo[j];
      MemberIff(job.keys, job.todo[j], job.keys[job.todo[i]]);
    }
  }

  lemma AnsweredAfterWork<B>(job: Job<B>, s: State, j: nat, i: nat)
    requires Wellformed(job) && Enabled(job, s, Work(j)) && job.start.calls <= s.calls
    requires i == j || Answered(job, s, i)
    ensures Answered(job, Next(job, s, Work(j)), i)
  {
    var s' := Next(job, s, Work(j));
    if i == j {
      assert s.calls < s'.calls && s'.answers[j] == Ask(job, s.calls, j);
    } else {
      var c: nat :| job.start.calls <= c < s.calls && s.answers[i] == Ask(job, c, i);
      assert c < s'.calls && s'.answers[i] == Ask(job, c, i);
    }
  }

  lemma HoldsAfterWork<B>(job: Job<B>, s: State, j: nat, i: nat)
    requires Wellformed(job) && Enabled(job, s, Work(j)) && Holds(job, s, i)
    ensures Holds(job, Next(job, s, Work(j)), i)
  {
  }

  lemma WorkKeeps<B>(job: Job<B>, s: State, j: nat)
    requires Wellformed(job) && Inv(job, s) && Enabled(job, s, Work(j))
    ensures Inv(job, Next(job, s, Work(j)))
  {
    var s' := Next(job, s, Work(j));
    assert s'.answers.Keys == s.answers.Keys + {j};
    forall i | i in s'.answers.Keys ensures Answered(job, s', i) {
      assert i == j || i in s.answers.Keys;
      AnsweredAfterWork(job, s, j, i);
    }
    forall i: nat | i < s'.stored ensures Holds(job, s', i) {
      HoldsAfterWork(job, s, j, i);
    }
  }

  lemma ConsumeKeeps<B>(job: Job<B>, s: State)
    requires Wellformed(job) && Inv(job, s) && Enabled(job, s, Consume)
    ensures Inv(job, Next(job, s, Consume))
  {
    var s' := Next(job, s, Consume);
    KeysAreNew(job, s.stored);
    forall i | i in s'.answers.Keys ensures Answered(job, s', i) {
      assert Answered(job, s, i);
    }
    forall i: nat | i < s'.stored ensures Holds(job, s', i) {
      if i < s.stored {
        assert Holds(job, s, i);
      }
    }
    forall k | k in s'.store
      ensures k in job.start.store || exists j: nat :: j < s'.stored && j < |job.todo| && KeyAt(job, j) == k
    {
      if k == KeyAt(job, s.stored) {
        assert s.stored < s'.stored;
      } else if k !in job.start.store {
        var j: nat :| j < s.stored && j < |job.todo| && KeyAt(job, j) == k;
        assert j < s'.stored;
      }
    }
  }

  lemma {:induction false} RunKeeps<B>(job: Job<B>, states: seq<State>, n: nat)
    requires Wellformed(job) && IsRun(job, states) && n < |states|
    ensures Inv(job, states[n])
  {
    if n == 0 {
    } else {
      RunKeeps(job, states, n - 1);
      assert Follows(job, states[n - 1], states[n]);
      var step :| Enabled(job, states[n - 1], step) && states[n] == Next(job, states[n - 1], step);
      match step
      case Work(j) => WorkKeeps(job, states[n - 1], j);
      case Consume => ConsumeKeeps(job, states[n - 1]);
    }
  }

  // ---------------------------------------------------------------- what a finished run has done

  function Below(n: nat): set<nat> {
    if n == 0 then {} else Below(n - 1) + {n - 1}
  }

  lemma {:induction false} BelowIs(n: nat)
    ensures |Below(n)| == n && forall j: nat :: j in Below(n) <==> j < n
  {
    if n == 0 {
    } else {
      BelowIs(n - 1);
    }
  }

  /** Whatever the order in which workers finish: one call per new key, nothing stored changes, and
      exactly the keys asked for are added. */
  lemma PoolGrows<B>(job: Job<B>, states: seq<State>, n: nat)
    requires Wellformed(job) && IsRun(job, states) && n < |states| && Finished(job, states[n])
    ensures Grown(job.start.store, Members(job.keys, |job.keys|), states[n].store, states[n].calls - job.start.calls)
  {
    var s := states[n];
    RunKeeps(job, states, n);
    BelowIs(|job.todo|);
    assert s.answers.Keys == Below(|job.todo|) by {
      forall j: nat ensures j in s.answers.Keys <==> j < |job.todo| {
        assert j in s.answers.Keys ==> Answered(job, s, j);
        assert j < s.stored ==> Holds(job, s, j);
      }
    }
    PendingCount(job.start.store.Keys, job.keys, |job.keys|);
    forall k ensures k in s.store <==> k in job.start.store || k in Members(job.keys, |job.keys|) {
      StoredKey(job, s, k);
    }
  }

  lemma StoredKey<B>(job: Job<B>, s: State, k: string)
    requires Wellformed(job) && Inv(job, s) && Finished(job, s)
    ensures k in s.store <==> k in job.start.store || k in Members(job.keys, |job.keys|)
  {
    var n := |job.keys|;
    MemberIff(job.keys, n, k);
    if k in s.store && k !in job.start.store {
      var j: nat :| j < s.stored && j < |job.todo| && KeyAt(job, j) == k;
      assert job.keys[job.todo[j]] == k;
    }
    if k in Members(job.keys, n) && k !in job.start.store {
      var j := FirstPending(job, k);
      assert Holds(job, s, j);
    }
  }

  /** The pending position that asks for a new key. */
  lemma FirstPending<B>(job: Job<B>, k: string) returns (j: nat)
    requires Wellformed(job) && k in Members(job.keys, |job.keys|) && k !in job.start.store
    ensures j < |job.todo| && KeyAt(job, j) == k
  {
    var i := FirstOccurrence(job.keys, |job.keys|, k);
    PendingExactlyNew(job.start.store.Keys, job.keys, |job.keys|);
    assert i in job.todo;
    j :| 0 <= j < |job.todo| && job.todo[j] == i;
  }

  lemma {:induction false} FirstOccurrence(keys: seq<string>, n: nat, k: string) returns (i: nat)
    requires n <= |keys| && k in Members(keys, n)
    ensures i < n && keys[i] == k && k !in Members(keys, i)
  {
    if k in Members(keys, n - 1) {
      i := FirstOccurrence(keys, n - 1, k);
    } else {
      i := n - 1;
    }
  }

  /** The runner answers a question the same way every time. */
  ghost predicate Steady<B(!new)>(runner: Runner<B>) {
    forall c: nat, d: nat, b, r :: runner(c, b, r) == runner(d, b, r)
  }

  /** With a runner that does not vary, a pool leaves the very store that one worker leaves. */
  lemma SteadyPoolIsSerial<B(!new)>(job: Job<B>, states: seq<State>, n: nat)
    requires Wellformed(job) && IsRun(job, states) && n < |states| && Finished(job, states[n])
    requires Steady(job.runner)
    ensures Progress(states[n].store, states[n].calls)
      == DecideEach(job.runner, job.start, job.requests, job.keys, |job.keys|)
  {
    var s, done := states[n], DecideEach(job.runner, job.start, job.requests, job.keys, |job.keys|);
    RunKeeps(job, states, n);
    PoolGrows(job, states, n);
    PrefetchGrows(job.runner, job.start, job.requests, job.keys);
    forall k | k in s.store && k in done.store ensures s.store[k] == done.store[k] {
      if k !in job.start.store {
        SteadyAnswer(job, s, k);
      }
    }
    assert s.store.Keys == done.store.Keys;
    SameStore(s.store, done.store);
  }

  lemma SteadyAnswer<B(!new)>(job: Job<B>, s: State, k: string)
    requires Wellformed(job) && Inv(job, s) && Finished(job, s) && Steady(job.runner)
    requires k !in job.start.store && k in s.store
    ensures var done := DecideEach(job.runner, job.start, job.requests, job.keys, |job.keys|);
      k in done.store ==> s.store[k] == done.store[k]
  {
    StoredKey(job, s, k);
    var j := FirstPending(job, k);
    assert Holds(job, s, j) && Answered(job, s, j);
    AskOne(job.runner, job.start, job.requests, job.keys, j);
    var i := Reach(job.todo, j + 1, |job.keys|);
    LaterKeeps(job.runner, job.start, job.requests, job.keys, i, |job.keys|, k);
  }

  lemma {:induction false} LaterKeeps<B>(runner: Runner<B>, p: Progress, requests: seq<Request<B>>, keys: seq<string>,
                                         i: nat, n: nat, k: string)
    requires i <= n <= |requests| == |keys| && k in DecideEach(runner, p, requests, keys, i).store
    ensures var later := DecideEach(runner, p, requests, keys, n).store;
      k in later && later[k] == DecideEach(runner, p, requests, keys, i).store[k]
  {
    if i == n {
    } else {
      LaterKeeps(runner, p, requests, keys, i, n - 1, k);
    }
  }

  lemma {:induction false} SizeWithin(a: set<nat>, b: set<nat>)
    requires a <= b
    ensures |a| <= |b|
  {
    if a == {} {
    } else {
      var x :| x in a;
      SizeWithin(a - {x}, b - {x});
    }
  }

  lemma {:induction false} StepsAreCounted<B>(job: Job<B>, states: seq<State>, n: nat)
    requires Wellformed(job) && IsRun(job, states) && n < |states|
    ensures n == |states[n].answers.Keys| + states[n].stored
  {
    if n == 0 {
    } else {
      StepsAreCounted(job, states, n - 1);
      assert Follows(job, states[n - 1], states[n]);
      var step :| Enabled(job, states[n - 1], step) && states[n] == Next(job, states[n - 1], step);
      if step.Work? {
        assert states[n].answers.Keys == states[n - 1].answers.Keys + {step.j};
      }
    }
  }

  /** The pool finishes: a run takes at most two steps per pending request, and until everything is
      stored some step is possible. */
  lemma PoolFinishes<B>(job: Job<B>, states: seq<State>, n: nat)
    requires Wellformed(job) && IsRun(job, states) && n < |states|
    ensures n <= 2 * |job.todo|
    ensures !Finished(job, states[n]) <==> exists step :: Enabled(job, states[n], step)
  {
    RunKeeps(job, states, n);
    StepsAreCounted(job, states, n);
    var s := states[n];
    BelowIs(|job.todo|);
    forall j | j in s.answers.Keys ensures j in Below(|job.todo|) {
      assert Answered(job, s, j);
    }
    SizeWithin(s.answers.Keys, Below(|job.todo|));
    if Finished(job, s) {
      forall step ensures !Enabled(job, s, step) {
        if step.Work? && step.j < |job.todo| {
          assert Holds(job, s, step.j);
        }
      }
    } else if s.stored in s.answers {
      assert Enabled(job, s, Consume);
    } else {
      assert Enabled(job, s, Work(s.stored));
    }
  }
}
