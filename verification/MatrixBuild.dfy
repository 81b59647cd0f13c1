/**
  The matrix build in its three phases: plan every compressed context and every question about it,
  prefetch the answers, assemble the matrix (benchmarks/prove.py, `build_matrix`).
*/
module MatrixBuild {
  import opened Wrappers
  import opened DecisionCache
  import P = PrefetchPool

  datatype Kind = Level | Baseline

  datatype Rung<!B> = Rung(name: string, compress: (B, int) -> B)

  datatype Comp<B> = Comp(kind: Kind, name: string, context: B)

  datatype Turn<B> = Turn(index: int, blocks: B)

  datatype Entry<B> = Entry(tid: string, domain: string, success: Option<bool>, turns: seq<Turn<B>>)

  type Gold = map<(string, int), string>

  /** What one run is told: the rungs, and how contexts are compressed, restored, read and counted. */
  datatype Settings<!B> = Settings(ladder: seq<Rung<B>>, baselines: seq<Rung<B>>, expand: bool, aaControl: bool,
                                   buildRestore: B -> Restore, text: B -> string, tokens: B -> nat)

  datatype PlannedTurn<B> = PlannedTurn(index: int, blocks: B, restore: Option<Restore>, gold: Option<string>,
                                        comps: seq<Comp<B>>)

  datatype Planned<B> = Planned(tid: string, domain: string, success: Option<bool>, turns: seq<PlannedTurn<B>>)

  datatype Cell = Cell(loss: nat, tokens: nat, changed: bool)

  datatype Row = Row(base: string, baseTokens: nat, gold: Option<string>, aaLoss: Option<nat>,
                     levels: map<string, Cell>, baselines: map<string, Cell>)

  datatype Record = Record(domain: string, success: Option<bool>, turns: seq<Row>)

  // ---------------------------------------------------------------- phase 1: the plan

  /** Where a kind and name stand among the first n compressed contexts. */
  function CompAt<B>(comps: seq<Comp<B>>, kind: Kind, name: string, n: nat): (i: Option<nat>)
    requires n <= |comps|
    ensures i.Some? ==> i.value < n && comps[i.value].kind == kind && comps[i.value].name == name
    ensures i.None? ==> forall j :: 0 <= j < n ==> comps[j].kind != kind || comps[j].name != name
  {
    if n == 0 then None
    else if comps[n - 1].kind == kind && comps[n - 1].name == name then Some(n - 1)
    else CompAt(comps, kind, name, n - 1)
  }

  /** A dictionary insertion: a repeated key keeps its place and takes the new value. */
  function PutComp<B>(comps: seq<Comp<B>>, c: Comp<B>): seq<Comp<B>> {
    var i := CompAt(comps, c.kind, c.name, |comps|);
    if i.Some? then comps[i.value := c] else comps + [c]
  }

  function CompsOf<B>(kind: Kind, rungs: seq<Rung<B>>, turn: Turn<B>, comps: seq<Comp<B>>, n: nat): seq<Comp<B>>
    requires n <= |rungs|
  {
    if n == 0 then comps
    else
      PutComp(CompsOf(kind, rungs, turn, comps, n - 1),
              Comp(kind, rungs[n - 1].name, rungs[n - 1].compress(turn.blocks, turn.index)))
  }

  function AllComps<B>(settings: Settings<B>, turn: Turn<B>): seq<Comp<B>> {
    var levels := CompsOf(Level, settings.ladder, turn, [], |settings.ladder|);
    CompsOf(Baseline, settings.baselines, turn, levels, |settings.baselines|)
  }

  function PlanTurn<B>(settings: Settings<B>, gold: Gold, tid: string, turn: Turn<B>): PlannedTurn<B> {
    PlannedTurn(turn.index, turn.blocks,
                if settings.expand then Some(settings.buildRestore(turn.blocks)) else None,
                if (tid, turn.index) in gold then Some(gold[(tid, turn.index)]) else None,
                AllComps(settings, turn))
  }

  function PlanTurns<B>(settings: Settings<B>, gold: Gold, e: Entry<B>, n: nat): (turns: seq<PlannedTurn<B>>)
    requires n <= |e.turns|
    ensures |turns| == n
  {
    if n == 0 then [] else PlanTurns(settings, gold, e, n - 1) + [PlanTurn(settings, gold, e.tid, e.turns[n - 1])]
  }

  function PlanEntry<B>(settings: Settings<B>, gold: Gold, e: Entry<B>): Planned<B> {
    Planned(e.tid, e.domain, e.success, PlanTurns(settings, gold, e, |e.turns|))
  }

  function Plan<B>(settings: Settings<B>, gold: Gold, entries: seq<Entry<B>>, n: nat): (plan: seq<Planned<B>>)
    requires n <= |entries|
    ensures |plan| == n
  {
    if n == 0 then [] else Plan(settings, gold, entries, n - 1) + [PlanEntry(settings, gold, entries[n - 1])]
  }

  function CompRequests<B>(pt: PlannedTurn<B>, n: nat): (rs: seq<Request<B>>)
    requires n <= |pt.comps|
  {
    if n == 0 then [] else CompRequests(pt, n - 1) + [Request(pt.comps[n - 1].context, pt.restore, "")]
  }

  function BaseRequests<B>(pt: PlannedTurn<B>, aa: bool): seq<Request<B>> {
    if aa then [Request(pt.blocks, pt.restore, ""), Request(pt.blocks, pt.restore, "aa")]
    else [Request(pt.blocks, pt.restore, "")]
  }

  function TurnRequests<B>(pt: PlannedTurn<B>, aa: bool): seq<Request<B>> {
    BaseRequests(pt, aa) + CompRequests(pt, |pt.comps|)
  }

  function TurnsRequests<B>(turns: seq<PlannedTurn<B>>, aa: bool, n: nat): seq<Request<B>>
    requires n <= |turns|
  {
    if n == 0 then [] else TurnsRequests(turns, aa, n - 1) + TurnRequests(turns[n - 1], aa)
  }

  function PlanRequests<B>(plan: seq<Planned<B>>, aa: bool, n: nat): seq<Request<B>>
    requires n <= |plan|
  {
    if n == 0 then [] else PlanRequests(plan, aa, n - 1) + TurnsRequests(plan[n - 1].turns, aa, |plan[n - 1].turns|)
  }

  // ---------------------------------------------------------------- phase 3: the matrix from a store

  /** Every one of the requests has an answer in the store. */
  ghost predicate Warm<B>(keyer: Keyer<B>, store: Store, requests: seq<Request<B>>) {
    forall r :: r in requests ==> ComposeKey(keyer, r) in store
  }

  function Answer<B>(keyer: Keyer<B>, store: Store, r: Request<B>): string {
    var k := ComposeKey(keyer, r);
    if k in store then store[k] else ""
  }

  function CompCell<B>(settings: Settings<B>, pt: PlannedTurn<B>, c: Comp<B>, base: string, decision: string): Cell {
    Cell(if decision == base then 0 else 1, settings.tokens(c.context),
      settings.text(c.context) != settings.text(pt.blocks))
  }

  /** The cells of one kind among the first n compressed contexts. */
  function Cells<B>(settings: Settings<B>, keyer: Keyer<B>, store: Store, pt: PlannedTurn<B>, kind: Kind,
                    n: nat): map<string, Cell>
    requires n <= |pt.comps|
  {
    if n == 0 then map[]
    else
      var c := pt.comps[n - 1];
      var before := Cells(settings, keyer, store, pt, kind, n - 1);
      if c.kind != kind then before
      else before[c.name := CompCell(settings, pt, c, Answer(keyer, store, Request(pt.blocks, pt.restore, "")),
                                     Answer(keyer, store, Request(c.context, pt.restore, "")))]
  }

  function RowOf<B>(settings: Settings<B>, keyer: Keyer<B>, store: Store, pt: PlannedTurn<B>): Row {
    var base := Answer(keyer, store, Request(pt.blocks, pt.restore, ""));
    Row(base, settings.tokens(pt.blocks), pt.gold,
        if settings.aaControl then
          Some(if Answer(keyer, store, Request(pt.blocks, pt.restore, "aa")) == base then 0 else 1)
        else None,
        Cells(settings, keyer, store, pt, Level, |pt.comps|), Cells(settings, keyer, store, pt, Baseline, |pt.comps|))
  }

  function RowsOf<B>(settings: Settings<B>, keyer: Keyer<B>, store: Store, turns: seq<PlannedTurn<B>>, n: nat): seq<Row>
    requires n <= |turns|
  {
    if n == 0 then [] else RowsOf(settings, keyer, store, turns, n - 1) + [RowOf(settings, keyer, store, turns[n - 1])]
  }

  function RecordOf<B>(settings: Settings<B>, keyer: Keyer<B>, store: Store, e: Planned<B>): Record {
    Record(e.domain, e.success, RowsOf(settings, keyer, store, e.turns, |e.turns|))
  }

  function MatrixOf<B>(settings: Settings<B>, keyer: Keyer<B>, store: Store, plan: seq<Planned<B>>, n: nat):
      map<string, Record>
    requires n <= |plan|
  {
    if n == 0 then map[]
    else MatrixOf(settings, keyer, store, plan, n - 1)[plan[n - 1].tid := RecordOf(settings, keyer, store, plan[n - 1])]
  }

  // ---------------------------------------------------------------- the three phases

  method PlanComps<B>(kind: Kind, rungs: seq<Rung<B>>, turn: Turn<B>, start: seq<Comp<B>>) returns (comps: seq<Comp<B>>)
    ensures comps == CompsOf(kind, rungs, turn, start, |rungs|)
  {
    comps := start;
    for i := 0 to |rungs|
      invariant comps == CompsOf(kind, rungs, turn, start, i)
    {
      comps := PutComp(comps, Comp(kind, rungs[i].name, rungs[i].compress(turn.blocks, turn.index)));
    }
  }

  method PlanOneTurn<B>(settings: Settings<B>, gold: Gold, tid: string, turn: Turn<B>)
    returns (pt: PlannedTurn<B>, requests: seq<Request<B>>)
    ensures pt == PlanTurn(settings, gold, tid, turn)
    ensures requests == TurnRequests(pt, settings.aaControl)
  {
    var restore := if settings.expand then Some(settings.buildRestore(turn.blocks)) else None;
    var comps := PlanComps(Level, settings.ladder, turn, []);
    comps := PlanComps(Baseline, settings.baselines, turn, comps);
    pt := PlannedTurn(turn.index, turn.blocks, restore,
                      if (tid, turn.index) in gold then Some(gold[(tid, turn.index)]) else None, comps);
    requests := [Request(turn.blocks, restore, "")];
    if settings.aaControl {
      requests := requests + [Request(turn.blocks, restore, "aa")];
    }
    for i := 0 to |comps|
      invariant requests == BaseRequests(pt, settings.aaControl) + CompRequests(pt, i)
    {
      requests := requests + [Request(comps[i].context, restore, "")];
    }
  }

  method PlanAll<B>(settings: Settings<B>, gold: Gold, entries: seq<Entry<B>>)
    returns (plan: seq<Planned<B>>, requests: seq<Request<B>>)
    ensures plan == Plan(settings, gold, entries, |entries|)
    ensures requests == PlanRequests(plan, settings.aaControl, |plan|)
  {
    plan, requests := [], [];
    for i := 0 to |entries|
      invariant plan == Plan(settings, gold, entries, i)
      invariant |plan| == i && requests == PlanRequests(plan, settings.aaControl, i)
    {
      var planned, asked := PlanOneEntry(settings, gold, entries[i]);
      PlanRequestsAppend(plan, planned, plan + [planned], settings.aaControl, i);
      plan, requests := plan + [planned], requests + asked;
    }
  }

  method PlanOneEntry<B>(settings: Settings<B>, gold: Gold, e: Entry<B>)
    returns (planned: Planned<B>, requests: seq<Request<B>>)
    ensures planned == PlanEntry(settings, gold, e)
    ensures requests == TurnsRequests(planned.turns, settings.aaControl, |planned.turns|)
  {
    var turns: seq<PlannedTurn<B>>;
    turns, requests := [], [];
    for i := 0 to |e.turns|
      invariant turns == PlanTurns(settings, gold, e, i)
      invariant |turns| == i && requests == TurnsRequests(turns, settings.aaControl, i)
    {
      var pt, asked := PlanOneTurn(settings, gold, e.tid, e.turns[i]);
      TurnsRequestsAppend(turns, pt, turns + [pt], settings.aaControl, i);
      turns, requests := turns + [pt], requests + asked;
    }
    planned := Planned(e.tid, e.domain, e.success, turns);
  }

  lemma {:induction false} TurnsRequestsOfPrefix<B>(turns: seq<PlannedTurn<B>>, longer: seq<PlannedTurn<B>>,
      aa: bool, n: nat)
    requires n <= |turns| && turns <= longer
    ensures TurnsRequests(longer, aa, n) == TurnsRequests(turns, aa, n)
  {
    if n == 0 {
    } else {
      TurnsRequestsOfPrefix(turns, longer, aa, n - 1);
      var last := TurnRequests(turns[n - 1], aa);
      assert longer[n - 1] == turns[n - 1];
      assert TurnsRequests(longer, aa, n) == TurnsRequests(longer, aa, n - 1) + last;
    }
  }

  lemma {:induction false} PlanRequestsOfPrefix<B>(plan: seq<Planned<B>>, longer: seq<Planned<B>>, aa: bool, n: nat)
    requires n <= |plan| && plan <= longer
    ensures PlanRequests(longer, aa, n) == PlanRequests(plan, aa, n)
  {
    if n == 0 {
    } else {
      PlanRequestsOfPrefix(plan, longer, aa, n - 1);
      assert longer[n - 1] == plan[n - 1];
      var last := TurnsRequests(plan[n - 1].turns, aa, |plan[n - 1].turns|);
      assert PlanRequests(longer, aa, n) == PlanRequests(longer, aa, n - 1) + last;
      assert PlanRequests(plan, aa, n) == PlanRequests(plan, aa, n - 1) + last;
    }
  }

  lemma TurnsRequestsAppend<B>(turns: seq<PlannedTurn<B>>, pt: PlannedTurn<B>, longer: seq<PlannedTurn<B>>,
      aa: bool, n: nat)
    requires n == |turns| && longer == turns + [pt]
    ensures TurnsRequests(longer, aa, n + 1) == TurnsRequests(turns, aa, n) + TurnRequests(pt, aa)
  {
    TurnsRequestsOfPrefix(turns, longer, aa, n);
    assert longer[n] == pt;
  }

  lemma PlanRequestsAppend<B>(plan: seq<Planned<B>>, e: Planned<B>, longer: seq<Planned<B>>, aa: bool, n: nat)
    requires n == |plan| && longer == plan + [e]
    ensures PlanRequests(longer, aa, n + 1) == PlanRequests(plan, aa, n) + TurnsRequests(e.turns, aa, |e.turns|)
  {
    PlanRequestsOfPrefix(plan, longer, aa, n);
    assert longer[n] == e;
  }

  // every lookup of phase 3 was planned in phase 1

  lemma {:induction false} CompPlanned<B>(pt: PlannedTurn<B>, n: nat, i: nat)
    requires i < n <= |pt.comps|
    ensures Request(pt.comps[i].context, pt.restore, "") in CompRequests(pt, n)
  {
    if i < n - 1 {
      CompPlanned(pt, n - 1, i);
    }
  }

  lemma {:induction false} TurnPlanned<B>(turns: seq<PlannedTurn<B>>, aa: bool, n: nat, i: nat, r: Request<B>)
    requires i < n <= |turns| && r in TurnRequests(turns[i], aa)
    ensures r in TurnsRequests(turns, aa, n)
  {
    if i < n - 1 {
      TurnPlanned(turns, aa, n - 1, i, r);
    }
  }

  lemma {:induction false} EntryPlanned<B>(plan: seq<Planned<B>>, aa: bool, n: nat, i: nat, r: Request<B>)
    requires i < n <= |plan| && r in TurnsRequests(plan[i].turns, aa, |plan[i].turns|)
    ensures r in PlanRequests(plan, aa, n)
  {
    if i < n - 1 {
      EntryPlanned(plan, aa, n - 1, i, r);
    }
  }

  lemma {:induction false} CompCount<B>(pt: PlannedTurn<B>, n: nat)
    requires n <= |pt.comps|
    ensures |CompRequests(pt, n)| == n
  {
    if n == 0 {
    } else {
      CompCount(pt, n - 1);
    }
  }

  method AssembleTurn<B>(settings: Settings<B>, cache: Cache<B>, pt: PlannedTurn<B>) returns (row: Row)
    requires Warm(cache.keyer, cache.store, TurnRequests(pt, settings.aaControl))
    modifies cache
    ensures row == RowOf(settings, cache.keyer, cache.store, pt)
    ensures cache.store == old(cache.store) && cache.calls == old(cache.calls) && cache.misses == old(cache.misses)
    ensures cache.hits == old(cache.hits) + |TurnRequests(pt, settings.aaControl)|
  {
    var aa := settings.aaControl;
    ghost var planned := TurnRequests(pt, aa);
    ghost var store := cache.store;
    ghost var once, twice := Request(pt.blocks, pt.restore, ""), Request(pt.blocks, pt.restore, "aa");
    assert once in planned && (aa ==> twice in planned) by {
      assert planned[0] == once && (aa ==> planned[1] == twice);
    }
    var base := cache.Decide(Request(pt.blocks, pt.restore, ""));
    var aaLoss := None;
    if aa {
      var again := cache.Decide(Request(pt.blocks, pt.restore, "aa"));
      aaLoss := Some(if again == base then 0 else 1);
    }
    var levels, baselines := AssembleCells(settings, cache, pt, base);
    CompCount(pt, |pt.comps|);
    row := Row(base, settings.tokens(pt.blocks), pt.gold, aaLoss, levels, baselines);
  }

  method AssembleCells<B>(settings: Settings<B>, cache: Cache<B>, pt: PlannedTurn<B>, base: string)
    returns (levels: map<string, Cell>, baselines: map<string, Cell>)
    requires Warm(cache.keyer, cache.store, CompRequests(pt, |pt.comps|))
    requires base == Answer(cache.keyer, cache.store, Request(pt.blocks, pt.restore, ""))
    modifies cache
    ensures levels == Cells(settings, cache.keyer, cache.store, pt, Level, |pt.comps|)
    ensures baselines == Cells(settings, cache.keyer, cache.store, pt, Baseline, |pt.comps|)
    ensures cache.store == old(cache.store) && cache.calls == old(cache.calls) && cache.misses == old(cache.misses)
    ensures cache.hits == old(cache.hits) + |pt.comps|
  {
    levels, baselines := map[], map[];
    for i := 0 to |pt.comps|
      invariant cache.store == old(cache.store) && cache.calls == old(cache.calls) && cache.misses == old(cache.misses)
      invariant cache.hits == old(cache.hits) + i
      invariant levels == Cells(settings, cache.keyer, cache.store, pt, Level, i)
      invariant baselines == Cells(settings, cache.keyer, cache.store, pt, Baseline, i)
    {
      var c := pt.comps[i];
      CompPlanned(pt, |pt.comps|, i);
      var decision := cache.Decide(Request(c.context, pt.restore, ""));
      var cell := CompCell(settings, pt, c, base, decision);
      if c.kind == Level {
        levels := levels[c.name := cell];
      } else {
        baselines := baselines[c.name := cell];
      }
    }
  }

  method AssembleEntry<B>(settings: Settings<B>, cache: Cache<B>, e: Planned<B>) returns (record: Record)
    requires Warm(cache.keyer, cache.store, TurnsRequests(e.turns, settings.aaControl, |e.turns|))
    modifies cache
    ensures record == RecordOf(settings, cache.keyer, cache.store, e)
    ensures cache.store == old(cache.store) && cache.calls == old(cache.calls) && cache.misses == old(cache.misses)
    ensures cache.hits == old(cache.hits) + |TurnsRequests(e.turns, settings.aaControl, |e.turns|)|
  {
    var turns := e.turns;
    var rows: seq<Row> := [];
    for i := 0 to |turns|
      invariant cache.store == old(cache.store) && cache.calls == old(cache.calls) && cache.misses == old(cache.misses)
      invariant cache.hits == old(cache.hits) + |TurnsRequests(turns, settings.aaControl, i)|
      invariant rows == RowsOf(settings, cache.keyer, cache.store, turns, i)
    {
      TurnWarm(cache.keyer, cache.store, turns, settings.aaControl, i);
      var row := AssembleTurn(settings, cache, turns[i]);
      rows := rows + [row];
    }
    record := Record(e.domain, e.success, rows);
  }

  lemma TurnWarm<B>(keyer: Keyer<B>, store: Store, turns: seq<PlannedTurn<B>>, aa: bool, i: nat)
    requires i < |turns| && Warm(keyer, store, TurnsRequests(turns, aa, |turns|))
    ensures Warm(keyer, store, TurnRequests(turns[i], aa))
  {
    forall r | r in TurnRequests(turns[i], aa) ensures ComposeKey(keyer, r) in store {
      TurnPlanned(turns, aa, |turns|, i, r);
    }
  }

  lemma EntryWarm<B>(keyer: Keyer<B>, store: Store, plan: seq<Planned<B>>, aa: bool, i: nat)
    requires i < |plan| && Warm(keyer, store, PlanRequests(plan, aa, |plan|))
    ensures Warm(keyer, store, TurnsRequests(plan[i].turns, aa, |plan[i].turns|))
  {
    forall r | r in TurnsRequests(plan[i].turns, aa, |plan[i].turns|) ensures ComposeKey(keyer, r) in store {
      EntryPlanned(plan, aa, |plan|, i, r);
    }
  }

  method Assemble<B>(settings: Settings<B>, cache: Cache<B>, plan: seq<Planned<B>>)
    returns (matrix: map<string, Record>)
    requires Warm(cache.keyer, cache.store, PlanRequests(plan, settings.aaControl, |plan|))
    modifies cache
    ensures matrix == MatrixOf(settings, cache.keyer, cache.store, plan, |plan|)
    ensures cache.store == old(cache.store) && cache.calls == old(cache.calls) && cache.misses == old(cache.misses)
    ensures cache.hits == old(cache.hits) + |PlanRequests(plan, settings.aaControl, |plan|)|
  {
    matrix := map[];
    ghost var keyer, store := cache.keyer, cache.store;
    for i := 0 to |plan|
      invariant cache.store == store && cache.calls == old(cache.calls) && cache.misses == old(cache.misses)
      invariant cache.hits == old(cache.hits) + |PlanRequests(plan, settings.aaControl, i)|
      invariant matrix == MatrixOf(settings, keyer, store, plan, i)
    {
      EntryWarm(keyer, store, plan, settings.aaControl, i);
      var record := AssembleEntry(settings, cache, plan[i]);
      matrix := matrix[plan[i].tid := record];
    }
  }

  lemma PrefetchWarms<B>(keyer: Keyer<B>, runner: Runner<B>, p: Progress, requests: seq<Request<B>>)
    ensures Warm(keyer, DecideEach(runner, p, requests, KeysOf(keyer, requests), |requests|).store, requests)
  {
    var keys := KeysOf(keyer, requests);
    DecideEachKeys(runner, p, requests, keys, |requests|);
    forall r | r in requests
      ensures ComposeKey(keyer, r) in DecideEach(runner, p, requests, keys, |requests|).store
    {
      var i :| 0 <= i < |requests| && requests[i] == r;
      assert keys[i] == ComposeKey(keyer, r);
      MemberIff(keys, |keys|, keys[i]);
      assert ComposeKey(keyer, r) in DecideEach(runner, p, requests, keys, |requests|).store.Keys;
    }
  }

  /** The whole build: one call per distinct planned key that was not stored, each planned question
      looked up exactly once afterwards, every lookup a hit, and the matrix read off the final store. */
  method BuildMatrix<B>(settings: Settings<B>, gold: Gold, cache: Cache<B>, entries: seq<Entry<B>>)
    returns (matrix: map<string, Record>)
    modifies cache
    ensures var plan := Plan(settings, gold, entries, |entries|);
      var requests := PlanRequests(plan, settings.aaControl, |plan|);
      var keys := KeysOf(cache.keyer, requests);
      && matrix == MatrixOf(settings, cache.keyer, cache.store, plan, |plan|)
      && Progress(cache.store, cache.calls)
         == DecideEach(cache.runner, Progress(old(cache.store), old(cache.calls)), requests, keys, |requests|)
      && Grown(old(cache.store), Members(keys, |keys|), cache.store, cache.calls - old(cache.calls))
      && cache.hits == old(cache.hits) + |requests|
      && cache.misses - old(cache.misses) == cache.calls - old(cache.calls)
  {
    var plan, requests := PlanAll(settings, gold, entries);
    ghost var p := Progress(cache.store, cache.calls);
    cache.Prefetch(requests);
    PrefetchWarms(cache.keyer, cache.runner, p, requests);
    PrefetchGrows(cache.runner, p, requests, KeysOf(cache.keyer, requests));
    matrix := Assemble(settings, cache, plan);
  }

  // ---------------------------------------------------------------- with a pool of workers

  /** The job of prefetching a plan's requests. */
  ghost predicate JobOf<B>(job: P.Job<B>, keyer: Keyer<B>, requests: seq<Request<B>>) {
    P.Wellformed(job) && job.requests == requests && job.keys == KeysOf(keyer, requests)
  }

  /** Whatever the order in which workers finish, a finished pool has answered every planned request. */
  lemma PoolWarms<B>(job: P.Job<B>, keyer: Keyer<B>, requests: seq<Request<B>>, states: seq<P.State>, n: nat)
    requires JobOf(job, keyer, requests) && P.IsRun(job, states) && n < |states| && P.Finished(job, states[n])
    ensures Warm(keyer, states[n].store, requests)
  {
    P.PoolGrows(job, states, n);
    forall r | r in requests ensures ComposeKey(keyer, r) in states[n].store {
      var i :| 0 <= i < |requests| && requests[i] == r;
      assert job.keys[i] == ComposeKey(keyer, r);
      MemberIff(job.keys, |job.keys|, job.keys[i]);
    }
  }

  /** Assembly after a pool's prefetch: no call, one hit per planned request, and the matrix read off
      the store the pool left, which has one new entry and one call per distinct uncached key. */
  method AssembleAfterPool<B>(settings: Settings<B>, cache: Cache<B>, plan: seq<Planned<B>>, ghost job: P.Job<B>,
                              ghost states: seq<P.State>, ghost n: nat)
    returns (matrix: map<string, Record>)
    requires JobOf(job, cache.keyer, PlanRequests(plan, settings.aaControl, |plan|))
    requires P.IsRun(job, states) && n < |states| && P.Finished(job, states[n])
    requires cache.store == states[n].store && cache.calls == states[n].calls
    modifies cache
    ensures matrix == MatrixOf(settings, cache.keyer, states[n].store, plan, |plan|)
    ensures cache.store == states[n].store && cache.calls == states[n].calls && cache.misses == old(cache.misses)
    ensures cache.hits == old(cache.hits) + |PlanRequests(plan, settings.aaControl, |plan|)|
    ensures Grown(job.start.store, Members(job.keys, |job.keys|), cache.store, cache.calls - job.start.calls)
  {
    PoolWarms(job, cache.keyer, PlanRequests(plan, settings.aaControl, |plan|), states, n);
    P.PoolGrows(job, states, n);
    matrix := Assemble(settings, cache, plan);
  }

  /** With a runner that does not vary, the number of workers does not show in the matrix. */
  lemma WorkersDoNotShow<B(!new)>(settings: Settings<B>, keyer: Keyer<B>, plan: seq<Planned<B>>, job: P.Job<B>,
                                  states: seq<P.State>, n: nat)
    requires JobOf(job, keyer, PlanRequests(plan, settings.aaControl, |plan|)) && P.Steady(job.runner)
    requires P.IsRun(job, states) && n < |states| && P.Finished(job, states[n])
    ensures MatrixOf(settings, keyer, states[n].store, plan, |plan|) ==
            MatrixOf(settings, keyer, DecideEach(job.runner, job.start, job.requests, job.keys, |job.keys|).store,
              plan, |plan|)
  {
    P.SteadyPoolIsSerial(job, states, n);
  }

  // ---------------------------------------------------------------- what the matrix says

  /** Building a second time asks nothing, stores nothing and reads the same matrix, however the
      runner varies. */
  lemma SecondBuildIsFree<B>(settings: Settings<B>, keyer: Keyer<B>, runner: Runner<B>, plan: seq<Planned<B>>,
                             p: Progress)
    ensures var requests := PlanRequests(plan, settings.aaControl, |plan|);
      var keys := KeysOf(keyer, requests);
      var once := DecideEach(runner, p, requests, keys, |requests|);
      var twice := DecideEach(runner, once, requests, keys, |requests|);
      && twice == once
      && MatrixOf(settings, keyer, twice.store, plan, |plan|) == MatrixOf(settings, keyer, once.store, plan, |plan|)
  {
    var requests := PlanRequests(plan, settings.aaControl, |plan|);
    var keys := KeysOf(keyer, requests);
    var once := DecideEach(runner, p, requests, keys, |requests|);
    var twice := DecideEach(runner, once, requests, keys, |requests|);
    PrefetchGrows(runner, p, requests, keys);
    PrefetchGrows(runner, once, requests, keys);
    PrefetchTwice(p.store, Members(keys, |keys|), once.store, once.calls - p.calls,
      twice.store, twice.calls - once.calls);
  }

  /** The key of the second draw of a context is another one than that of the first. */
  lemma ControlHasItsOwnKey<B>(keyer: Keyer<B>, pt: PlannedTurn<B>)
    ensures ComposeKey(keyer, Request(pt.blocks, pt.restore, "")) !=
            ComposeKey(keyer, Request(pt.blocks, pt.restore, "aa"))
  {
    var first := ComposeKey(keyer, Request(pt.blocks, pt.restore, ""));
    assert ComposeKey(keyer, Request(pt.blocks, pt.restore, "aa")) == first + ":v=" + "aa";
    assert |first + ":v=" + "aa"| > |first|;
  }

  /** The self-agreement control is a second draw: where neither of a turn's base keys was stored, the
      base answer and the control answer come from two different calls to the runner. */
  lemma ControlIsDrawnAnew<B>(keyer: Keyer<B>, runner: Runner<B>, plan: seq<Planned<B>>, p: Progress, e: nat, t: nat)
    requires e < |plan| && t < |plan[e].turns|
    requires ComposeKey(keyer, Request(plan[e].turns[t].blocks, plan[e].turns[t].restore, "")) !in p.store
    requires ComposeKey(keyer, Request(plan[e].turns[t].blocks, plan[e].turns[t].restore, "aa")) !in p.store
    ensures var requests := PlanRequests(plan, true, |plan|);
      var keys := KeysOf(keyer, requests);
      var done := DecideEach(runner, p, requests, keys, |requests|);
      var base := Request(plan[e].turns[t].blocks, plan[e].turns[t].restore, "");
      var again := base.(variant := "aa");
      TwoCalls(runner, requests, keys, ComposeKey(keyer, base), Answer(keyer, done.store, base),
               ComposeKey(keyer, again), Answer(keyer, done.store, again), p.calls, done.calls)
  {
    var pt := plan[e].turns[t];
    var requests := PlanRequests(plan, true, |plan|);
    var keys := KeysOf(keyer, requests);
    var base, again := Request(pt.blocks, pt.restore, ""), Request(pt.blocks, pt.restore, "aa");
    BothAreRequested(pt);
    TurnPlanned(plan[e].turns, true, |plan[e].turns|, t, base);
    TurnPlanned(plan[e].turns, true, |plan[e].turns|, t, again);
    EntryPlanned(plan, true, |plan|, e, base);
    EntryPlanned(plan, true, |plan|, e, again);
    PrefetchWarms(keyer, runner, p, requests);
    ControlHasItsOwnKey(keyer, pt);
    DecideEachAsksTwice(runner, p, requests, keys, |requests|, ComposeKey(keyer, base), ComposeKey(keyer, again));
  }

  lemma BothAreRequested<B>(pt: PlannedTurn<B>)
    ensures Request(pt.blocks, pt.restore, "") in TurnRequests(pt, true)
    ensures Request(pt.blocks, pt.restore, "aa") in TurnRequests(pt, true)
  {
    var requests := TurnRequests(pt, true);
    assert requests[0] == Request(pt.blocks, pt.restore, "") && requests[1] == Request(pt.blocks, pt.restore, "aa");
  }

  /** The last of the first n rungs with a name. */
  function LastNamed<B>(rungs: seq<Rung<B>>, name: string, n: nat): (i: Option<nat>)
    requires n <= |rungs|
    ensures i.Some? ==> i.value < n && rungs[i.value].name == name
    ensures forall j :: (if i.Some? then i.value else -1) < j < n ==> rungs[j].name != name
  {
    if n == 0 then None else if rungs[n - 1].name == name then Some(n - 1) else LastNamed(rungs, name, n - 1)
  }

  predicate UniqueComps<B>(comps: seq<Comp<B>>) {
    forall i, j :: 0 <= i < j < |comps| ==> comps[i].kind != comps[j].kind || comps[i].name != comps[j].name
  }

  function FindComp<B>(comps: seq<Comp<B>>, kind: Kind, name: string): Option<B> {
    var i := CompAt(comps, kind, name, |comps|);
    if i.Some? then Some(comps[i.value].context) else None
  }

  lemma FindUnique<B>(comps: seq<Comp<B>>, kind: Kind, name: string, i: nat)
    requires UniqueComps(comps) && i < |comps| && comps[i].kind == kind && comps[i].name == name
    ensures FindComp(comps, kind, name) == Some(comps[i].context)
  {
  }

  lemma PutFinds<B>(comps: seq<Comp<B>>, c: Comp<B>, kind: Kind, name: string)
    requires UniqueComps(comps)
    ensures UniqueComps(PutComp(comps, c))
    ensures FindComp(PutComp(comps, c), kind, name) ==
      if c.kind == kind && c.name == name then Some(c.context) else FindComp(comps, kind, name)
  {
    var put := PutComp(comps, c);
    var at := CompAt(comps, kind, name, |comps|);
    if c.kind == kind && c.name == name {
      FindUnique(put, kind, name, if at.Some? then at.value else |comps|);
    } else if at.Some? {
      FindUnique(put, kind, name, at.value);
    }
  }

  lemma {:induction false} CompsOfFinds<B>(kind: Kind, rungs: seq<Rung<B>>, turn: Turn<B>, start: seq<Comp<B>>, n: nat,
                                           wanted: Kind, name: string)
    requires n <= |rungs| && UniqueComps(start)
    ensures UniqueComps(CompsOf(kind, rungs, turn, start, n))
    ensures var last := LastNamed(rungs, name, n);
      FindComp(CompsOf(kind, rungs, turn, start, n), wanted, name) ==
        if wanted == kind && last.Some? then Some(rungs[last.value].compress(turn.blocks, turn.index))
        else FindComp(start, wanted, name)
  {
    if n == 0 {
    } else {
      CompsOfFinds(kind, rungs, turn, start, n - 1, wanted, name);
      PutFinds(CompsOf(kind, rungs, turn, start, n - 1),
               Comp(kind, rungs[n - 1].name, rungs[n - 1].compress(turn.blocks, turn.index)), wanted, name);
    }
  }

  lemma {:induction false} CellsFind<B>(settings: Settings<B>, keyer: Keyer<B>, store: Store, pt: PlannedTurn<B>,
                                        kind: Kind, n: nat, name: string)
    requires n <= |pt.comps|
    ensures var cells, at := Cells(settings, keyer, store, pt, kind, n), CompAt(pt.comps, kind, name, n);
      && (name in cells <==> at.Some?)
      && (name in cells && at.Some? ==>
            cells[name] == CompCell(settings, pt, pt.comps[at.value],
              Answer(keyer, store, Request(pt.blocks, pt.restore, "")),
                                    Answer(keyer, store, Request(pt.comps[at.value].context, pt.restore, ""))))
  {
    if n == 0 {
    } else {
      CellsFind(settings, keyer, store, pt, kind, n - 1, name);
    }
  }

  function RungsOf<B>(settings: Settings<B>, kind: Kind): seq<Rung<B>> {
    if kind == Level then settings.ladder else settings.baselines
  }

  function CellsOf(row: Row, kind: Kind): map<string, Cell> {
    if kind == Level then row.levels else row.baselines
  }

  /** A row has one cell per name on the ladder (or among the baselines), made from the last rung of
      that name: no loss iff the stored answer to its context equals the stored answer to the base. */
  lemma CellsAreRungs<B>(settings: Settings<B>, keyer: Keyer<B>, store: Store, gold: Gold, tid: string, turn: Turn<B>,
                         kind: Kind, name: string)
    ensures var pt := PlanTurn(settings, gold, tid, turn);
      var cells := CellsOf(RowOf(settings, keyer, store, pt), kind);
      var rungs := RungsOf(settings, kind);
      var last := LastNamed(rungs, name, |rungs|);
      && (name in cells <==> last.Some?)
      && (name in cells && last.Some? ==>
            var context := rungs[last.value].compress(turn.blocks, turn.index);
            && cells[name].loss <= 1
            && (cells[name].loss == 0 <==> Answer(keyer, store, Request(context, pt.restore, ""))
                                           == Answer(keyer, store, Request(turn.blocks, pt.restore, "")))
            && cells[name].tokens == settings.tokens(context)
            && (cells[name].changed <==> settings.text(context) != settings.text(turn.blocks)))
  {
    var pt := PlanTurn(settings, gold, tid, turn);
    var levels := CompsOf(Level, settings.ladder, turn, [], |settings.ladder|);
    CompsOfFinds(Level, settings.ladder, turn, [], |settings.ladder|, kind, name);
    CompsOfFinds(Baseline, settings.baselines, turn, levels, |settings.baselines|, kind, name);
    CellsFind(settings, keyer, store, pt, kind, |pt.comps|, name);
  }

  /** A rung that leaves the rendered context alone never shows a loss, although asking the runner
      twice about that context might well give two answers. */
  lemma UnalteredContextLosesNothing<B>(settings: Settings<B>, keyer: Keyer<B>, store: Store, gold: Gold, tid: string,
                                        turn: Turn<B>, kind: Kind, name: string)
    requires var rungs := RungsOf(settings, kind);
      var last := LastNamed(rungs, name, |rungs|);
      last.Some? && keyer.blocksKey(rungs[last.value].compress(turn.blocks, turn.index)) == keyer.blocksKey(turn.blocks)
    ensures var cells := CellsOf(RowOf(settings, keyer, store, PlanTurn(settings, gold, tid, turn)), kind);
      name in cells && cells[name].loss == 0
  {
    CellsAreRungs(settings, keyer, store, gold, tid, turn, kind, name);
  }
}
