/** What one call of `run_ready_steps` does: how much it starts, when it stops, and that a
    healthy plan runs to completion. */
module RunResults {
  import opened Types
  import opened AbstractStore
  import opened Engine
  import opened Programs
  import opened Ledger
  import opened PlanSafety
  import opened WaveSafety

  /** A book about which nothing is claimed but its plan. */
  function Bare(row: Row): Book { Book(row, [], true, {}, false) }

  lemma BareGood(row: Row)
    requires row.status.Active? && PlanOk(row.nodes, |row.steps|)
    ensures Good(Bare(row))
  {
  }

  /** The nodes a run starts, in order. */
  function Started(row: Row, maxParallel: int, maxSteps: int, o: Oracle): seq<nat>
    requires maxParallel >= 1
  {
    LoopStarted(WavesOf(maxParallel, o), row, maxSteps, 0)
  }

  /** A node a run is through with. */
  predicate Closed(node: Node) { node.status.Completed? || node.status.Failed? }

  lemma {:induction false} PrepareFrame(p: Prep, wave: seq<nat>, w: nat, o: Oracle)
    requires forall i :: 0 <= i < |wave| ==> wave[i] < |p.nodes|
    ensures var q := Prepare(p, wave, w, o);
      && |q.prepared| <= |p.prepared| + |wave|
      && (forall n :: n in q.prepared ==> n in p.prepared || n in wave)
      && (forall n :: 0 <= n < |p.nodes| && n !in wave ==> q.nodes[n] == p.nodes[n])
    decreases |wave|
  {
    if wave != [] && !p.aborted {
      PrepareFrame(PrepareOne(p, wave[0], w, o), wave[1..], w, o);
    }
  }

  lemma RefreshClosed(nodes: seq<Node>, n: nat)
    requires n < |nodes|
    ensures Closed(nodes[n]) ==> Refresh(nodes)[n] == nodes[n]
    ensures Closed(Refresh(nodes)[n]) ==> Closed(nodes[n])
  {
    RefreshPartial(nodes, nodes, Upto(|nodes|));
    assert PartialAt(nodes, Refresh(nodes), n);
  }

  lemma PreparationHolds(row: Row, maxParallel: int, budget: int, w: nat, o: Oracle)
    requires row.status.Active? && PlanOk(row.nodes, |row.steps|) && maxParallel >= 1 && budget >= 1
    ensures PrepOk(Bare(row), Prepared(row, maxParallel, budget, w, o))
  {
    BareGood(row);
    PreparedOk(Bare(row), maxParallel, budget, w, o);
  }

  lemma WaveNodesDistinct(row: Row, maxParallel: int, budget: int, w: nat, o: Oracle)
    requires row.status.Active? && PlanOk(row.nodes, |row.steps|) && maxParallel >= 1 && budget >= 1
    ensures Distinct(Prepared(row, maxParallel, budget, w, o).prepared)
  {
    PreparationHolds(row, maxParallel, budget, w, o);
  }

  /** The row left by a wave that lets the loop go on. */
  lemma ContinuedRow(row: Row, maxParallel: int, budget: int, w: nat, o: Oracle)
    requires row.status.Active? && PlanOk(row.nodes, |row.steps|) && maxParallel >= 1 && budget >= 1
    requires RunWave(row, maxParallel, budget, w, o).verdict.Continued?
    ensures var p := Prepared(row, maxParallel, budget, w, o);
      RunRow(row, RunWave(row, maxParallel, budget, w, o).events)
          == Row(Active, DoneNodes(p.nodes, p.prepared, w, o), DoneSteps(p, w, o))
  {
    PreparationHolds(row, maxParallel, budget, w, o);
    RanSafe(Bare(row), Prepared(row, maxParallel, budget, w, o), w, o);
    RowOfBook(Bare(row), RunWave(row, maxParallel, budget, w, o).events);
  }

  lemma ContinuedPlan(row: Row, maxParallel: int, budget: int, w: nat, o: Oracle)
    requires row.status.Active? && PlanOk(row.nodes, |row.steps|) && maxParallel >= 1 && budget >= 1
    requires RunWave(row, maxParallel, budget, w, o).verdict.Continued?
    ensures var after := RunRow(row, RunWave(row, maxParallel, budget, w, o).events);
      after.status.Active? && PlanOk(after.nodes, |after.steps|)
  {
    BareGood(row);
    WaveSafe(Bare(row), maxParallel, budget, w, o);
  }

  lemma FailedRow(row: Row, maxParallel: int, budget: int, w: nat, o: Oracle)
    requires row.status.Active? && PlanOk(row.nodes, |row.steps|) && maxParallel >= 1 && budget >= 1
    requires RunWave(row, maxParallel, budget, w, o).verdict.WaveFailed?
    ensures !RunRow(row, RunWave(row, maxParallel, budget, w, o).events).status.Active?
  {
    var p := Prepared(row, maxParallel, budget, w, o);
    var ran := p.events + [SaveNodes(p.nodes)] + Execution(p.nodes, p.prepared, w, o);
    RowAppends(row, ran, [SetStatus(FailureStatus(p.nodes, p.prepared, w, o))]);
    assert RunRow(RunRow(row, ran), [SetStatus(FailureStatus(p.nodes, p.prepared, w, o))])
        == After(RunRow(row, ran), SetStatus(FailureStatus(p.nodes, p.prepared, w, o)));
  }

  lemma DistinctConcat(a: seq<nat>, c: seq<nat>)
    requires Distinct(a) && Distinct(c)
    requires forall n :: n in c ==> n !in a
    ensures Distinct(a + c)
  {
    forall i, j | 0 <= i < j < |a + c| ensures (a + c)[i] != (a + c)[j] {
      if i < |a| <= j { assert (a + c)[j] in c && (a + c)[i] in a; }
    }
  }

  /** Distinct unfinished nodes of a row. */
  ghost predicate Fresh(nodes: seq<Node>, started: seq<nat>) {
    Distinct(started) && forall n :: n in started ==> n < |nodes| && !Closed(nodes[n])
  }

  /** Nodes finished in `before`, or started meanwhile, are finished in `after`. */
  ghost predicate Finishes(before: seq<Node>, after: seq<Node>, started: seq<nat>) {
    |before| == |after| && forall n :: 0 <= n < |before| && (n in started || Closed(before[n])) ==> Closed(after[n])
  }

  lemma FreshConcat(before: seq<Node>, after: seq<Node>, a: seq<nat>, c: seq<nat>)
    requires Fresh(before, a) && Finishes(before, after, a) && Fresh(after, c)
    ensures Fresh(before, a + c)
  {
    forall n | n in c ensures n < |before| && !Closed(before[n]) && n !in a {}
    DistinctConcat(a, c);
  }

  lemma WaveMembers(row: Row, maxParallel: int, budget: int, w: nat, o: Oracle)
    requires row.status.Active? && PlanOk(row.nodes, |row.steps|) && maxParallel >= 1 && budget >= 1
    ensures var p := Prepared(row, maxParallel, budget, w, o);
      && |p.nodes| == |row.nodes|
      && |p.prepared| <= budget && |p.prepared| <= maxParallel
      && (forall n :: n in p.prepared ==> n < |row.nodes| && !Closed(row.nodes[n]))
      && (forall n :: 0 <= n < |row.nodes| && Closed(row.nodes[n]) ==> p.nodes[n] == row.nodes[n])
  {
    var nodes := Refresh(row.nodes);
    var members := ReadyNodes(nodes)[..Min(Min(maxParallel, budget), |ReadyNodes(nodes)|)];
    PrepareFrame(Prep(nodes, row.steps, [], [], false), members, w, o);
    forall n | 0 <= n < |row.nodes| && Closed(row.nodes[n]) ensures nodes[n] == row.nodes[n] && n !in members {
      RefreshClosed(row.nodes, n);
    }
  }

  lemma DoneFinishes(before: seq<Node>, p: Prep, w: nat, o: Oracle)
    requires |before| == |p.nodes|
    requires forall n :: 0 <= n < |before| && Closed(before[n]) ==> p.nodes[n] == before[n]
    ensures Finishes(before, DoneNodes(p.nodes, p.prepared, w, o), p.prepared)
  {
    var done := FinishedNodes(p.nodes, p.prepared, w, o);
    forall n | 0 <= n < |before| && (n in p.prepared || Closed(before[n]))
      ensures Closed(DoneNodes(p.nodes, p.prepared, w, o)[n])
    {
      assert Closed(done[n]);
      RefreshClosed(done, n);
    }
  }

  /** A wave starts few, distinct, unfinished nodes, and whatever it started is finished after it. */
  lemma WaveStarts(row: Row, maxParallel: int, budget: int, w: nat, o: Oracle)
    requires row.status.Active? && PlanOk(row.nodes, |row.steps|) && maxParallel >= 1 && budget >= 1
    ensures var wave := RunWave(row, maxParallel, budget, w, o);
      && |wave.prepared| <= budget && |wave.prepared| <= maxParallel && Fresh(row.nodes, wave.prepared)
      && (wave.verdict.Continued? ==> Finishes(row.nodes, RunRow(row, wave.events).nodes, wave.prepared))
  {
    WaveNodesDistinct(row, maxParallel, budget, w, o);
    WaveMembers(row, maxParallel, budget, w, o);
    if RunWave(row, maxParallel, budget, w, o).verdict.Continued? { ContinuedRow(row, maxParallel, budget, w, o); }
    DoneFinishes(row.nodes, Prepared(row, maxParallel, budget, w, o), w, o);
  }

  /** A row the loop may meet. */
  ghost predicate Runs(row: Row) { row.status.Active? && PlanOk(row.nodes, |row.steps|) }

  ghost predicate OrderlyWave(row: Row, budget: int, wave: Wave) {
    && |wave.prepared| <= budget && Fresh(row.nodes, wave.prepared)
    && (wave.verdict.Continued? ==>
          Runs(RunRow(row, wave.events)) && Finishes(row.nodes, RunRow(row, wave.events).nodes, wave.prepared))
  }

  ghost predicate Orderly(f: Waves) {
    forall row: Row, budget: int, w: nat {:trigger OrderlyWave(row, budget, f(row, budget, w))} ::
      Runs(row) && budget >= 1 ==> OrderlyWave(row, budget, f(row, budget, w))
  }

  lemma {:induction false} StartedOnce(f: Waves, row: Row, budget: int, w: nat)
    requires Orderly(f) && Runs(row)
    ensures |LoopStarted(f, row, budget, w)| <= if budget <= 0 then 0 else budget
    ensures Fresh(row.nodes, LoopStarted(f, row, budget, w))
    decreases budget
  {
    if budget > 0 {
      var wave := f(row, budget, w);
      assert OrderlyWave(row, budget, f(row, budget, w));
      if wave.verdict.Continued? && |wave.prepared| > 0 {
        var after := RunRow(row, wave.events);
        StartedOnce(f, after, budget - |wave.prepared|, w + 1);
        FreshConcat(row.nodes, after.nodes, wave.prepared, LoopStarted(f, after, budget - |wave.prepared|, w + 1));
      }
    }
  }

  // ---- starts and calls seen in the events ----

  /** A step is put into EXECUTING. */
  predicate IsStart(e: Event) {
    e.Write? && (e.change.NewStep? || (e.change.SetStep? && e.change.stepStatus.Executing?))
  }

  function Starts(events: seq<Event>): nat {
    if events == [] then 0 else (if IsStart(events[0]) then 1 else 0) + Starts(events[1..])
  }

  lemma {:induction false} StartsAppend(a: seq<Event>, c: seq<Event>)
    ensures Starts(a + c) == Starts(a) + Starts(c)
  {
    if a == [] {
      assert a + c == c;
    } else {
      assert (a + c)[1..] == a[1..] + c;
      StartsAppend(a[1..], c);
    }
  }

  lemma {:induction false} NoStarts(events: seq<Event>)
    requires forall i :: 0 <= i < |events| ==> !IsStart(events[i])
    ensures Starts(events) == 0
  {
    if events != [] { NoStarts(events[1..]); }
  }

  lemma {:induction false} PrepareCounts(p: Prep, wave: seq<nat>, w: nat, o: Oracle)
    requires forall i :: 0 <= i < |wave| ==> wave[i] < |p.nodes|
    requires Starts(p.events) == |p.prepared| && forall i :: 0 <= i < |p.events| ==> p.events[i].Write?
    ensures var q := Prepare(p, wave, w, o);
      Starts(q.events) == |q.prepared| && forall i :: 0 <= i < |q.events| ==> q.events[i].Write?
    decreases |wave|
  {
    if wave != [] && !p.aborted {
      var q := PrepareOne(p, wave[0], w, o);
      if q.events != p.events {
        StartsAppend(p.events, [q.events[|p.events|]]);
        assert q.events == p.events + [q.events[|p.events|]];
        assert Starts([q.events[|p.events|]]) == 1;
      }
      PrepareCounts(q, wave[1..], w, o);
    }
  }

  ghost predicate CallsAmong(events: seq<Event>, started: seq<nat>) {
    forall i :: 0 <= i < |events| && events[i].Invoke? ==> events[i].node.Some? && events[i].node.value in started
  }

  /** No steps are started, and only started nodes are called. */
  ghost predicate CallsOnly(events: seq<Event>, started: seq<nat>) {
    Starts(events) == 0 && CallsAmong(events, started)
  }

  lemma CallsOnlyConcat(a: seq<Event>, c: seq<Event>, started: seq<nat>)
    requires CallsOnly(a, started) && CallsOnly(c, started)
    ensures CallsOnly(a + c, started)
  {
    StartsAppend(a, c);
  }

  lemma InvocationsCounts(nodes: seq<Node>, order: seq<nat>, started: seq<nat>)
    requires forall n :: n in order ==> n in started
    ensures CallsOnly(Invocations(nodes, order), started)
  {
    var calls := Invocations(nodes, order);
    forall i | 0 <= i < |calls| ensures !IsStart(calls[i]) && calls[i].node.Some? && calls[i].node.value in started {
      assert order[i] in order;
    }
    NoStarts(calls);
  }

  lemma MarksCount(nodes: seq<Node>, prepared: seq<nat>, w: nat, o: Oracle)
    ensures CallsOnly(FinishEvents(nodes, prepared, w, o), prepared)
  {
    NoStarts(FinishEvents(nodes, prepared, w, o));
  }

  lemma SaveCounts(nodes: seq<Node>, started: seq<nat>)
    ensures CallsOnly([SaveNodes(nodes)], started)
  {
    NoStarts([SaveNodes(nodes)]);
  }

  lemma ExecutionCounts(p: Prep, w: nat, o: Oracle)
    requires p.prepared != []
    ensures CallsOnly(Execution(p.nodes, p.prepared, w, o), p.prepared)
  {
    var calls, marks := Invocations(p.nodes, CallOrder(p.prepared, w, o)), FinishEvents(p.nodes, p.prepared, w, o);
    InvocationsCounts(p.nodes, CallOrder(p.prepared, w, o), p.prepared);
    MarksCount(p.nodes, p.prepared, w, o);
    SaveCounts(DoneNodes(p.nodes, p.prepared, w, o), p.prepared);
    CallsOnlyConcat(calls, marks, p.prepared);
    CallsOnlyConcat(calls + marks, [SaveNodes(DoneNodes(p.nodes, p.prepared, w, o))], p.prepared);
  }

  lemma WaveCounts(row: Row, maxParallel: int, budget: int, w: nat, o: Oracle)
    requires maxParallel >= 1 && budget >= 1
    ensures var wave := RunWave(row, maxParallel, budget, w, o);
      Starts(wave.events) == |wave.prepared| && CallsAmong(wave.events, wave.prepared)
  {
    var nodes := Refresh(row.nodes);
    if ReadyNodes(nodes) == [] {
      SaveCounts(nodes, []);
    } else {
      PrepareCounts(Prep(nodes, row.steps, [], [], false),
                    ReadyNodes(nodes)[..Min(Min(maxParallel, budget), |ReadyNodes(nodes)|)], w, o);
      WaveEventCounts(Prepared(row, maxParallel, budget, w, o), w, o);
    }
  }

  lemma CallsAmongConcat(a: seq<Event>, c: seq<Event>, started: seq<nat>)
    requires CallsAmong(a, started) && CallsAmong(c, started)
    ensures CallsAmong(a + c, started) && Starts(a + c) == Starts(a) + Starts(c)
  {
    StartsAppend(a, c);
  }

  lemma WaveEventCounts(p: Prep, w: nat, o: Oracle)
    requires Starts(p.events) == |p.prepared| && forall i :: 0 <= i < |p.events| ==> p.events[i].Write?
    ensures CallsAmong(p.events, p.prepared)
    ensures var saved := p.events + [SaveNodes(p.nodes)];
      Starts(saved) == |p.prepared| && CallsAmong(saved, p.prepared)
    ensures p.prepared != [] ==>
      var ran := p.events + [SaveNodes(p.nodes)] + Execution(p.nodes, p.prepared, w, o);
      var failed := ran + [SetStatus(FailureStatus(p.nodes, p.prepared, w, o))];
      && Starts(ran) == |p.prepared| && CallsAmong(ran, p.prepared)
      && Starts(failed) == |p.prepared| && CallsAmong(failed, p.prepared)
  {
    SaveCounts(p.nodes, p.prepared);
    CallsAmongConcat(p.events, [SaveNodes(p.nodes)], p.prepared);
    if p.prepared != [] {
      var saved, run := p.events + [SaveNodes(p.nodes)], Execution(p.nodes, p.prepared, w, o);
      ExecutionCounts(p, w, o);
      CallsAmongConcat(saved, run, p.prepared);
      NoStarts([SetStatus(FailureStatus(p.nodes, p.prepared, w, o))]);
      CallsAmongConcat(saved + run, [SetStatus(FailureStatus(p.nodes, p.prepared, w, o))], p.prepared);
    }
  }

  ghost predicate CountedWave(wave: Wave) {
    Starts(wave.events) == |wave.prepared| && CallsAmong(wave.events, wave.prepared)
  }

  ghost predicate Counted(f: Waves) {
    forall row: Row, budget: int, w: nat {:trigger f(row, budget, w)} :: budget >= 1 ==> CountedWave(f(row, budget, w))
  }

  lemma {:induction false} LoopCounts(f: Waves, row: Row, budget: int, w: nat)
    requires Counted(f)
    ensures Starts(Loop(f, row, budget, w)) == |LoopStarted(f, row, budget, w)|
    ensures CallsAmong(Loop(f, row, budget, w), LoopStarted(f, row, budget, w))
    decreases budget
  {
    if budget > 0 {
      var wave := f(row, budget, w);
      assert CountedWave(wave);
      if wave.verdict.Continued? && |wave.prepared| > 0 {
        var after := RunRow(row, wave.events);
        LoopCounts(f, after, budget - |wave.prepared|, w + 1);
        StartsAppend(wave.events, Loop(f, after, budget - |wave.prepared|, w + 1));
      }
    }
  }

  /** A call of `run_ready_steps` puts at most `max_steps` steps into EXECUTING, starts no node
      twice, and calls actions only for nodes it started. */
  lemma BoundedRun(row: Row, maxParallel: int, maxSteps: int, o: Oracle)
    requires RunAllowed(row, maxParallel, maxSteps) && PlanOk(row.nodes, |row.steps|)
    ensures var events, started := RunProgram(row, maxParallel, maxSteps, o), Started(row, maxParallel, maxSteps, o);
      && Starts(events) == |started| <= maxSteps
      && Distinct(started)
      && CallsAmong(events, started)
  {
    var f := WavesOf(maxParallel, o);
    forall r: Row, budget: int, w: nat | Runs(r) && budget >= 1 ensures OrderlyWave(r, budget, f(r, budget, w)) {
      WaveIsOrderly(r, maxParallel, budget, w, o);
    }
    StartedOnce(f, row, maxSteps, 0);
    forall r: Row, budget: int, w: nat | budget >= 1 ensures CountedWave(f(r, budget, w)) {
      WaveCounts(r, maxParallel, budget, w, o);
    }
    LoopCounts(f, row, maxSteps, 0);
  }

  lemma WaveIsOrderly(row: Row, maxParallel: int, budget: int, w: nat, o: Oracle)
    requires Runs(row) && maxParallel >= 1 && budget >= 1
    ensures OrderlyWave(row, budget, RunWave(row, maxParallel, budget, w, o))
  {
    WaveStarts(row, maxParallel, budget, w, o);
    if RunWave(row, maxParallel, budget, w, o).verdict.Continued? {
      ContinuedPlan(row, maxParallel, budget, w, o);
    }
  }

  // ---- when the run stops ----

  /** Contracts resolve and inputs re-validate throughout. */
  ghost predicate Accepts(o: Oracle) { forall w: nat, n: nat :: o.resolves(w, n) && o.valid(w, n) }

  lemma {:induction false} PrepareAll(p: Prep, wave: seq<nat>, w: nat, o: Oracle)
    requires Accepts(o) && !p.aborted && Journaled(p.nodes, |p.steps|) && Distinct(wave)
    requires forall i :: 0 <= i < |wave| ==> wave[i] < |p.nodes| && p.nodes[wave[i]].status.Ready?
    ensures Prepare(p, wave, w, o).prepared == p.prepared + wave && !Prepare(p, wave, w, o).aborted
    decreases |wave|
  {
    if wave != [] {
      var q := PrepareOne(p, wave[0], w, o);
      assert q.prepared == p.prepared + [wave[0]];
      PrepareAll(q, wave[1..], w, o);
      assert p.prepared + wave == p.prepared + [wave[0]] + wave[1..];
    } else {
      assert p.prepared + wave == p.prepared;
    }
  }

  lemma WaveTakesAll(row: Row, maxParallel: int, budget: int, w: nat, o: Oracle)
    requires Accepts(o) && PlanOk(row.nodes, |row.steps|) && maxParallel >= 1 && budget >= 1
    ensures var wave, ready := RunWave(row, maxParallel, budget, w, o), ReadyNodes(Refresh(row.nodes));
      && (wave.verdict.Idle? <==> ready == [])
      && !wave.verdict.Aborted? && !wave.verdict.Stuck?
      && (ready != [] ==> wave.prepared == ready[..Min(Min(maxParallel, budget), |ready|)] != [])
  {
    RefreshKeepsPlan(row.nodes, |row.steps|);
    var nodes := Refresh(row.nodes);
    var ready := ReadyNodes(nodes);
    PrepareAll(Prep(nodes, row.steps, [], [], false), ready[..Min(Min(maxParallel, budget), |ready|)], w, o);
  }

  lemma IdleRow(row: Row, maxParallel: int, budget: int, w: nat, o: Oracle)
    requires maxParallel >= 1 && budget >= 1 && RunWave(row, maxParallel, budget, w, o).verdict.Idle?
    ensures RunRow(row, RunWave(row, maxParallel, budget, w, o).events) == row.(nodes := Refresh(row.nodes))
    ensures ReadyNodes(Refresh(row.nodes)) == []
  {
    assert RunRow(row, [SaveNodes(Refresh(row.nodes))]) == After(row, SaveNodes(Refresh(row.nodes)));
  }

  ghost predicate CleanWave(row: Row, wave: Wave) {
    var after := RunRow(row, wave.events);
    if wave.verdict.Continued? then Runs(after) && wave.prepared != []
    else if wave.verdict.Idle? then ReadyNodes(after.nodes) == []
    else !after.status.Active?
  }

  ghost predicate Clean(f: Waves) {
    forall row: Row, budget: int, w: nat {:trigger CleanWave(row, f(row, budget, w))} ::
      Runs(row) && budget >= 1 ==> CleanWave(row, f(row, budget, w))
  }

  lemma {:induction false} StopsWithNothingReady(f: Waves, row: Row, budget: int, w: nat)
    requires Clean(f) && Runs(row)
    requires RunRow(row, Loop(f, row, budget, w)).status.Active?
    requires |LoopStarted(f, row, budget, w)| < budget
    ensures ReadyNodes(RunRow(row, Loop(f, row, budget, w)).nodes) == []
    decreases budget
  {
    var wave := f(row, budget, w);
    assert CleanWave(row, f(row, budget, w));
    if wave.verdict.Continued? {
      var after := RunRow(row, wave.events);
      RowAppends(row, wave.events, Loop(f, after, budget - |wave.prepared|, w + 1));
      StopsWithNothingReady(f, after, budget - |wave.prepared|, w + 1);
    }
  }

  lemma WaveIsClean(row: Row, maxParallel: int, budget: int, w: nat, o: Oracle)
    requires Runs(row) && Accepts(o) && maxParallel >= 1 && budget >= 1
    ensures CleanWave(row, RunWave(row, maxParallel, budget, w, o))
  {
    WaveTakesAll(row, maxParallel, budget, w, o);
    match RunWave(row, maxParallel, budget, w, o).verdict
    case Idle => IdleRow(row, maxParallel, budget, w, o);
    case WaveFailed => FailedRow(row, maxParallel, budget, w, o);
    case Continued => ContinuedPlan(row, maxParallel, budget, w, o);
    case _ =>
  }

  /** A run that ends ACTIVE with budget left, no contract or input having been refused, leaves no
      READY node. */
  lemma NothingReadyLeft(row: Row, maxParallel: int, maxSteps: int, o: Oracle)
    requires RunAllowed(row, maxParallel, maxSteps) && PlanOk(row.nodes, |row.steps|) && Accepts(o)
    requires RunRow(row, RunProgram(row, maxParallel, maxSteps, o)).status.Active?
    requires |Started(row, maxParallel, maxSteps, o)| < maxSteps
    ensures forall n :: 0 <= n < |RunRow(row, RunProgram(row, maxParallel, maxSteps, o)).nodes| ==>
      !RunRow(row, RunProgram(row, maxParallel, maxSteps, o)).nodes[n].status.Ready?
  {
    var f := WavesOf(maxParallel, o);
    forall r: Row, budget: int, w: nat | Runs(r) && budget >= 1 ensures CleanWave(r, f(r, budget, w)) {
      WaveIsClean(r, maxParallel, budget, w, o);
    }
    StopsWithNothingReady(f, row, maxSteps, 0);
  }

  // ---- progress ----

  /** Not waiting on a person, not failed, not in flight. */
  predicate Runnable(node: Node) {
    node.status.Completed? || ((node.status.Ready? || Refreshable(node)) && Cleared(node))
  }

  ghost predicate Healthy(nodes: seq<Node>) {
    forall n :: 0 <= n < |nodes| ==> Runnable(nodes[n])
  }

  function Outstanding(nodes: seq<Node>): set<nat> {
    set n: nat | n < |nodes| && !nodes[n].status.Completed?
  }

  lemma RefreshHealthy(nodes: seq<Node>)
    requires Healthy(nodes)
    ensures Healthy(Refresh(nodes)) && Outstanding(Refresh(nodes)) == Outstanding(nodes)
  {
    RefreshPartial(nodes, nodes, Upto(|nodes|));
    forall n | 0 <= n < |nodes|
      ensures Runnable(Refresh(nodes)[n]) && (Refresh(nodes)[n].status.Completed? <==> nodes[n].status.Completed?)
    {
      assert PartialAt(nodes, Refresh(nodes), n);
    }
  }

  /** The earliest outstanding node of a healthy plan is always ready after a refresh. */
  lemma {:induction false} FirstIsReady(nodes: seq<Node>, n: nat)
    requires Topological(nodes) && Healthy(nodes) && n < |nodes| && !nodes[n].status.Completed?
    ensures ReadyNodes(Refresh(nodes)) != []
    decreases n
  {
    if m :| 0 <= m < n && !nodes[m].status.Completed? {
      FirstIsReady(nodes, m);
    } else {
      RefreshIsFixpoint(nodes);
      assert Solved(nodes, Refresh(nodes), n);
      RefreshPartial(nodes, nodes, Upto(|nodes|));
      forall d | d in nodes[n].deps ensures d < n && Refresh(nodes)[d].status.Completed? {
        assert PartialAt(nodes, Refresh(nodes), d);
      }
      assert Refresh(nodes)[n].status.Ready?;
      assert n in ReadyNodes(Refresh(nodes));
    }
  }

  function Members(s: seq<nat>): set<nat> { set n | n in s }

  lemma {:induction false} DistinctSize(s: seq<nat>)
    requires Distinct(s)
    ensures |Members(s)| == |s|
  {
    if s != [] {
      DistinctSize(s[1..]);
      assert s[0] !in s[1..];
      assert Members(s) == {s[0]} + Members(s[1..]);
    }
  }

  /** Every action the run calls succeeds. */
  ghost predicate NothingFails(o: Oracle) { forall w: nat, n: nat :: o.Succeeds(w, n) }

  lemma WaveOutcome(row: Row, maxParallel: int, budget: int, w: nat, o: Oracle)
    requires row.status.Active? && PlanOk(row.nodes, |row.steps|) && Healthy(row.nodes)
    requires Accepts(o) && NothingFails(o) && maxParallel >= 1 && budget >= 1
    requires RunWave(row, maxParallel, budget, w, o).verdict.Continued?
    ensures var p := Prepared(row, maxParallel, budget, w, o);
      var done := FinishedNodes(p.nodes, p.prepared, w, o);
      && |done| == |row.nodes| && Healthy(done)
      && |Outstanding(done)| == |Outstanding(row.nodes)| - |p.prepared|
  {
    RefreshHealthy(row.nodes);
    WaveTakesAll(row, maxParallel, budget, w, o);
    WaveNodesDistinct(row, maxParallel, budget, w, o);
    var p := Prepared(row, maxParallel, budget, w, o);
    var nodes := Refresh(row.nodes);
    PrepareFrame(Prep(nodes, row.steps, [], [], false), p.prepared, w, o);
    var done := FinishedNodes(p.nodes, p.prepared, w, o);
    forall n | 0 <= n < |row.nodes|
      ensures Runnable(done[n]) && (done[n].status.Completed? <==> n in p.prepared || nodes[n].status.Completed?)
    {
      if n !in p.prepared { assert p.nodes[n] == nodes[n]; }
    }
    WaveCardinality(nodes, done, p.prepared);
  }

  lemma WaveProgress(row: Row, maxParallel: int, budget: int, w: nat, o: Oracle)
    requires row.status.Active? && PlanOk(row.nodes, |row.steps|) && Healthy(row.nodes)
    requires Accepts(o) && NothingFails(o) && maxParallel >= 1 && budget >= 1 && Outstanding(row.nodes) != {}
    ensures var wave := RunWave(row, maxParallel, budget, w, o);
      && wave.verdict.Continued? && |wave.prepared| > 0
      && Healthy(RunRow(row, wave.events).nodes)
      && |Outstanding(RunRow(row, wave.events).nodes)| == |Outstanding(row.nodes)| - |wave.prepared|
  {
    var first :| first in Outstanding(row.nodes);
    FirstIsReady(row.nodes, first);
    WaveTakesAll(row, maxParallel, budget, w, o);
    WaveOutcome(row, maxParallel, budget, w, o);
    ContinuedRow(row, maxParallel, budget, w, o);
    var p := Prepared(row, maxParallel, budget, w, o);
    RefreshHealthy(FinishedNodes(p.nodes, p.prepared, w, o));
  }

  lemma WaveCardinality(nodes: seq<Node>, done: seq<Node>, prepared: seq<nat>)
    requires |nodes| == |done| && Distinct(prepared)
    requires forall i :: 0 <= i < |prepared| ==> prepared[i] < |nodes| && nodes[prepared[i]].status.Ready?
    requires forall n :: 0 <= n < |nodes| ==>
             (done[n].status.Completed? <==> n in prepared || nodes[n].status.Completed?)
    ensures |Outstanding(done)| == |Outstanding(nodes)| - |prepared|
  {
    DistinctSize(prepared);
    forall n | n in Members(prepared) ensures n in Outstanding(nodes) {
      var i :| 0 <= i < |prepared| && prepared[i] == n;
    }
    assert Outstanding(nodes) == Outstanding(done) + Members(prepared);
    assert Outstanding(done) !! Members(prepared);
  }

  ghost predicate OnCourse(row: Row) { Runs(row) && Healthy(row.nodes) }

  ghost predicate AdvancingWave(row: Row, wave: Wave) {
    var after := RunRow(row, wave.events);
    if Outstanding(row.nodes) == {} then !wave.verdict.Continued? && after == row
    else && wave.verdict.Continued? && wave.prepared != [] && OnCourse(after)
         && |Outstanding(after.nodes)| == |Outstanding(row.nodes)| - |wave.prepared|
  }

  ghost predicate Advancing(f: Waves) {
    forall row: Row, budget: int, w: nat {:trigger AdvancingWave(row, f(row, budget, w))} ::
      OnCourse(row) && budget >= 1 ==> AdvancingWave(row, f(row, budget, w))
  }

  lemma {:induction false} LoopCompletes(f: Waves, row: Row, budget: int, w: nat)
    requires Advancing(f) && OnCourse(row) && |Outstanding(row.nodes)| <= budget
    ensures OnCourse(RunRow(row, Loop(f, row, budget, w)))
    ensures Outstanding(RunRow(row, Loop(f, row, budget, w)).nodes) == {}
    decreases budget
  {
    if budget > 0 {
      var wave := f(row, budget, w);
      assert AdvancingWave(row, f(row, budget, w));
      if Outstanding(row.nodes) != {} {
        var after := RunRow(row, wave.events);
        LoopCompletes(f, after, budget - |wave.prepared|, w + 1);
        RowAppends(row, wave.events, Loop(f, after, budget - |wave.prepared|, w + 1));
      }
    }
  }

  lemma {:induction false} NoneReady(nodes: seq<Node>)
    requires forall n :: 0 <= n < |nodes| ==> !nodes[n].status.Ready?
    ensures ReadyNodes(nodes) == []
  {
    if nodes != [] { NoneReady(nodes[..|nodes| - 1]); }
  }

  lemma NothingToDo(row: Row, maxParallel: int, budget: int, w: nat, o: Oracle)
    requires OnCourse(row) && Outstanding(row.nodes) == {} && maxParallel >= 1 && budget >= 1
    ensures RunWave(row, maxParallel, budget, w, o).verdict.Idle?
    ensures RunRow(row, RunWave(row, maxParallel, budget, w, o).events) == row
  {
    RefreshPartial(row.nodes, row.nodes, Upto(|row.nodes|));
    forall n: nat | n < |row.nodes| ensures Refresh(row.nodes)[n] == row.nodes[n] && row.nodes[n].status.Completed? {
      assert PartialAt(row.nodes, Refresh(row.nodes), n);
      assert n !in Outstanding(row.nodes);
    }
    assert Refresh(row.nodes) == row.nodes;
    NoneReady(row.nodes);
    IdleRow(row, maxParallel, budget, w, o);
  }

  lemma WaveAdvances(row: Row, maxParallel: int, budget: int, w: nat, o: Oracle)
    requires OnCourse(row) && Accepts(o) && NothingFails(o) && maxParallel >= 1 && budget >= 1
    ensures AdvancingWave(row, RunWave(row, maxParallel, budget, w, o))
  {
    if Outstanding(row.nodes) == {} {
      NothingToDo(row, maxParallel, budget, w, o);
    } else {
      WaveProgress(row, maxParallel, budget, w, o);
      ContinuedPlan(row, maxParallel, budget, w, o);
    }
  }

  /** A plan with nobody to wait for and nothing failed or in flight, whose actions all succeed,
      is completed by one call whose `max_steps` covers the outstanding nodes, whatever the
      parallelism; after that `commit` goes through. */
  lemma DagProgress(row: Row, maxParallel: int, maxSteps: int, o: Oracle)
    requires RunAllowed(row, maxParallel, maxSteps) && PlanOk(row.nodes, |row.steps|)
    requires Healthy(row.nodes) && Accepts(o) && NothingFails(o) && |Outstanding(row.nodes)| <= maxSteps
    ensures var after := RunRow(row, RunProgram(row, maxParallel, maxSteps, o));
      && after.status.Active? && AllCompleted(after.nodes)
      && RunRow(after, CommitProgram(after)).status.Committed?
  {
    var f := WavesOf(maxParallel, o);
    forall r: Row, budget: int, w: nat | OnCourse(r) && budget >= 1 ensures AdvancingWave(r, f(r, budget, w)) {
      WaveAdvances(r, maxParallel, budget, w, o);
    }
    LoopCompletes(f, row, maxSteps, 0);
    var after := RunRow(row, RunProgram(row, maxParallel, maxSteps, o));
    forall n | n in after.nodes ensures n.status.Completed? {
      var i: nat :| i < |after.nodes| && after.nodes[i] == n;
      assert i !in Outstanding(after.nodes);
    }
    assert CommitProgram(after) == [SetStatus(Committed)];
    assert RunRow(after, [SetStatus(Committed)]) == After(after, SetStatus(Committed));
  }

  // ---- how often a wave calls its members ----

  /** Forward calls made for node `n`. */
  function CallsFor(events: seq<Event>, n: nat): nat {
    if events == [] then 0
    else (if events[0].Invoke? && events[0].node == Some(n) then 1 else 0) + CallsFor(events[1..], n)
  }

  lemma {:induction false} CallsForAppend(a: seq<Event>, c: seq<Event>, n: nat)
    ensures CallsFor(a + c, n) == CallsFor(a, n) + CallsFor(c, n)
  {
    if a == [] {
      assert a + c == c;
    } else {
      assert (a + c)[1..] == a[1..] + c;
      CallsForAppend(a[1..], c, n);
    }
  }

  lemma {:induction false} NoCalls(events: seq<Event>, n: nat)
    requires forall i :: 0 <= i < |events| ==> !events[i].Invoke?
    ensures CallsFor(events, n) == 0
  {
    if events != [] { NoCalls(events[1..], n); }
  }

  lemma {:induction false} InterleavedIsPermutation(due: seq<nat>, w: nat, i: nat, o: Oracle)
    ensures multiset(Interleaved(due, w, i, o)) == multiset(due)
    decreases |due|
  {
    if due != [] {
      var j := o.pick(w, i) % |due|;
      InterleavedIsPermutation(due[..j] + due[j + 1..], w, i + 1, o);
      assert due == due[..j] + [due[j]] + due[j + 1..];
    }
  }

  lemma {:induction false} InvocationsCount(nodes: seq<Node>, order: seq<nat>, n: nat)
    ensures CallsFor(Invocations(nodes, order), n) == multiset(order)[n]
  {
    if order != [] {
      InvocationsCount(nodes, order[1..], n);
      assert order == [order[0]] + order[1..];
      assert Invocations(nodes, order)[1..] == Invocations(nodes, order[1..]);
    }
  }

  lemma {:induction false} RepeatCount(k: nat, m: nat, n: nat)
    ensures multiset(seq(k, _ => m))[n] == if n == m then k else 0
  {
    if k > 0 {
      RepeatCount(k - 1, m, n);
      assert seq(k, _ => m) == seq(k - 1, _ => m) + [m];
    }
  }

  lemma {:induction false} DueCount(prepared: seq<nat>, w: nat, o: Oracle, n: nat)
    requires Distinct(prepared)
    ensures multiset(Due(prepared, w, o))[n] == if n in prepared then TriesFrom(1, o.member(w, n)) else 0
  {
    if prepared != [] {
      DueCount(prepared[1..], w, o, n);
      RepeatCount(TriesFrom(1, o.member(w, prepared[0])), prepared[0], n);
      assert prepared == [prepared[0]] + prepared[1..];
    }
  }

  lemma ExecutionCalls(p: Prep, w: nat, o: Oracle, n: nat)
    requires p.prepared != [] && Distinct(p.prepared)
    ensures CallsFor(Execution(p.nodes, p.prepared, w, o), n)
         == if n in p.prepared then TriesFrom(1, o.member(w, n)) else 0
  {
    var order, marks := CallOrder(p.prepared, w, o), FinishEvents(p.nodes, p.prepared, w, o);
    InterleavedIsPermutation(Due(p.prepared, w, o), w, 0, o);
    DueCount(p.prepared, w, o, n);
    InvocationsCount(p.nodes, order, n);
    NoCalls(marks, n);
    NoCalls([SaveNodes(DoneNodes(p.nodes, p.prepared, w, o))], n);
    CallsForAppend(Invocations(p.nodes, order), marks, n);
    CallsForAppend(Invocations(p.nodes, order) + marks, [SaveNodes(DoneNodes(p.nodes, p.prepared, w, o))], n);
  }

  /** A wave that executes calls each member up to its first success: at most its policy's attempts,
      at least once if it succeeds, and nobody else. */
  lemma WaveCallsMembers(row: Row, maxParallel: int, budget: int, w: nat, o: Oracle, n: nat)
    requires Runs(row) && maxParallel >= 1 && budget >= 1
    requires RunWave(row, maxParallel, budget, w, o).verdict.Continued? ||
             RunWave(row, maxParallel, budget, w, o).verdict.WaveFailed?
    ensures var wave, f := RunWave(row, maxParallel, budget, w, o), o.member(w, n);
      && CallsFor(wave.events, n) == (if n in wave.prepared then TriesFrom(1, f) else 0)
      && CallsFor(wave.events, n) <= f.maxAttempts
      && (n in wave.prepared && o.Succeeds(w, n) ==> CallsFor(wave.events, n) >= 1)
  {
    var p := Prepared(row, maxParallel, budget, w, o);
    var run, last := Execution(p.nodes, p.prepared, w, o), [SetStatus(FailureStatus(p.nodes, p.prepared, w, o))];
    WaveNodesDistinct(row, maxParallel, budget, w, o);
    TriesMeaning(1, o.member(w, n));
    PreparedCalls(row, maxParallel, budget, w, o, n);
    ExecutionCalls(p, w, o, n);
    CallsForAppend(p.events + [SaveNodes(p.nodes)], run, n);
    NoCalls(last, n);
    CallsForAppend(p.events + [SaveNodes(p.nodes)] + run, last, n);
  }

  lemma PreparedCalls(row: Row, maxParallel: int, budget: int, w: nat, o: Oracle, n: nat)
    requires maxParallel >= 1 && budget >= 1
    ensures var p := Prepared(row, maxParallel, budget, w, o); CallsFor(p.events + [SaveNodes(p.nodes)], n) == 0
  {
    var nodes := Refresh(row.nodes);
    PrepareCounts(Prep(nodes, row.steps, [], [], false),
                  ReadyNodes(nodes)[..Min(Min(maxParallel, budget), |ReadyNodes(nodes)|)], w, o);
    NoCalls(Prepared(row, maxParallel, budget, w, o).events
            + [SaveNodes(Prepared(row, maxParallel, budget, w, o).nodes)], n);
  }
}
