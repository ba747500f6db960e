/** Forward execution keeps the book good at every cut: the write-ahead wave of
    `run_ready_steps`, the whole loop, and the single step of `execute`. */
module WaveSafety {
  import opened Types
  import opened AbstractStore
  import opened Engine
  import opened Programs
  import opened Ledger
  import opened PlanSafety

  ghost predicate PreparedAt(p: Prep, n: nat) {
    && n < |p.nodes|
    && p.nodes[n].status.Executing?
    && p.nodes[n].stepNo.Some?
    && p.nodes[n].stepNo.value < |p.steps|
    && p.steps[p.nodes[n].stepNo.value].status.Executing?
  }

  ghost predicate PlanSide(b: Book, p: Prep) {
    && PlanOk(p.nodes, |p.steps|)
    && (!b.slipped ==> DependenciesDone(p.nodes))
    && NodesEvolve(b.row.nodes, p.nodes) && |p.nodes| == |b.row.nodes|
  }

  ghost predicate JournalSide(b: Book, p: Prep) {
    && Safe(b, p.events)
    && RunBook(b, p.events) == b.(row := Row(Active, b.row.nodes, p.steps))
  }

  ghost predicate PreparedSide(p: Prep) {
    && Distinct(p.prepared)
    && forall i :: 0 <= i < |p.prepared| ==> PreparedAt(p, p.prepared[i])
  }

  /** What holds while a wave is prepared: the journal runs ahead of the saved nodes. */
  ghost predicate PrepOk(b: Book, p: Prep) {
    Good(b) && b.row.status.Active? && PlanSide(b, p) && JournalSide(b, p) && PreparedSide(p)
  }

  /** A READY node starts, fails re-validation, or its call raises. */
  lemma StartKeepsPlan(nodes: seq<Node>, steps: nat, n: nat, node: Node)
    requires PlanOk(nodes, steps) && n < |nodes| && nodes[n].status.Ready?
    requires node == nodes[n].(status := NodeStatus.Failed) ||
             node == nodes[n].(status := NodeStatus.Executing, stepNo := node.stepNo)
    requires node.stepNo == nodes[n].stepNo || (nodes[n].stepNo.None? && node.stepNo == Some(steps))
    requires node.status.Executing? ==> node.stepNo.Some?
    ensures PlanOk(nodes[n := node], steps + if node.stepNo == nodes[n].stepNo then 0 else 1)
    ensures NodesEvolve(nodes, nodes[n := node])
  {
    var g := nodes[n := node];
    assert forall i :: 0 <= i < |nodes| && i != n ==> g[i] == nodes[i];
  }

  lemma StartKeepsDependencies(nodes: seq<Node>, n: nat, node: Node)
    requires n < |nodes| && nodes[n].status.Ready? && node.deps == nodes[n].deps
    requires DependenciesDone(nodes)
    ensures DependenciesDone(nodes[n := node])
  {
    var g := nodes[n := node];
    forall i | 0 <= i < |g| && UnderWay(g[i]) ensures AllDone(g[i].deps, g) {
      assert AllDone(nodes[i].deps, nodes);
    }
  }

  lemma StartPlanSide(b: Book, p: Prep, n: nat, w: nat, o: Oracle)
    requires PlanSide(b, p) && n < |p.nodes| && p.nodes[n].status.Ready?
    ensures PlanSide(b, PrepareOne(p, n, w, o))
  {
    var q := PrepareOne(p, n, w, o);
    if q.nodes != p.nodes {
      StartKeepsPlan(p.nodes, |p.steps|, n, q.nodes[n]);
      if !b.slipped { StartKeepsDependencies(p.nodes, n, q.nodes[n]); }
      EvolveTransitive(b.row.nodes, p.nodes, q.nodes);
    }
  }

  /** The step is journaled as EXECUTING before the node is. */
  lemma StartJournalSide(b: Book, p: Prep, n: nat, w: nat, o: Oracle)
    requires Good(b) && b.row.status.Active? && JournalSide(b, p) && n < |p.nodes|
    ensures JournalSide(b, PrepareOne(p, n, w, o))
  {
    var q := PrepareOne(p, n, w, o);
    if q.events != p.events {
      SafeEnd(b, p.events);
      var c := RunBook(b, p.events);
      if p.nodes[n].stepNo.Some? {
        var k := p.nodes[n].stepNo.value;
        MarkSafe(c, k, StepStatus.Executing, None);
        SafeAppend(b, p.events, [Mark(k, StepStatus.Executing)]);
      } else {
        var step := FreshStep(p.nodes[n].contract);
        NewStepSafe(c, step);
        SafeAppend(b, p.events, [Write(NewStep(step))]);
      }
    }
  }

  lemma StartPreparedSide(p: Prep, n: nat, w: nat, o: Oracle)
    requires PreparedSide(p) && n < |p.nodes| && p.nodes[n].status.Ready?
    ensures PreparedSide(PrepareOne(p, n, w, o))
  {
    var q := PrepareOne(p, n, w, o);
    forall i | 0 <= i < |q.prepared| ensures PreparedAt(q, q.prepared[i]) {
      if i < |p.prepared| { assert PreparedAt(p, p.prepared[i]); }
    }
    forall i | 0 <= i < |p.prepared| ensures p.prepared[i] != n {
      assert PreparedAt(p, p.prepared[i]);
    }
  }

  lemma {:induction false} PrepareKeeps(b: Book, p: Prep, wave: seq<nat>, w: nat, o: Oracle)
    requires PrepOk(b, p) && Distinct(wave)
    requires forall i :: 0 <= i < |wave| ==> wave[i] < |p.nodes| && p.nodes[wave[i]].status.Ready?
    ensures PrepOk(b, Prepare(p, wave, w, o))
    decreases |wave|
  {
    if wave != [] && !p.aborted {
      var q := PrepareOne(p, wave[0], w, o);
      StartPlanSide(b, p, wave[0], w, o);
      StartJournalSide(b, p, wave[0], w, o);
      StartPreparedSide(p, wave[0], w, o);
      PrepareKeeps(b, q, wave[1..], w, o);
    }
  }

  lemma PreparedOk(b: Book, maxParallel: int, budget: int, w: nat, o: Oracle)
    requires Good(b) && b.row.status.Active? && maxParallel >= 1 && budget >= 1
    ensures PrepOk(b, Prepared(b.row, maxParallel, budget, w, o))
  {
    RefreshKeepsPlan(b.row.nodes, |b.row.steps|);
    var nodes := Refresh(b.row.nodes);
    var p := Prep(nodes, b.row.steps, [], [], false);
    assert JournalSide(b, p);
    PrepareKeeps(b, p, ReadyNodes(nodes)[..Min(Min(maxParallel, budget), |ReadyNodes(nodes)|)], w, o);
  }

  // ---- after the wave ran ----

  lemma FinishKeepsPlan(p: Prep, w: nat, o: Oracle)
    requires PlanOk(p.nodes, |p.steps|) && PreparedSide(p)
    ensures PlanOk(FinishedNodes(p.nodes, p.prepared, w, o), |p.steps|)
    ensures NodesEvolve(p.nodes, FinishedNodes(p.nodes, p.prepared, w, o))
    ensures DependenciesDone(p.nodes) ==> DependenciesDone(FinishedNodes(p.nodes, p.prepared, w, o))
  {
    var g := FinishedNodes(p.nodes, p.prepared, w, o);
    forall n | 0 <= n < |p.nodes|
      ensures g[n].stepNo == p.nodes[n].stepNo && NodeEvolves(p.nodes[n], g[n])
      ensures g[n] != p.nodes[n] ==> p.nodes[n].status.Executing?
      ensures UnderWay(g[n]) ==> UnderWay(p.nodes[n]) && g[n].approval == p.nodes[n].approval
    {
      if n in p.prepared {
        var i :| 0 <= i < |p.prepared| && p.prepared[i] == n;
        assert PreparedAt(p, p.prepared[i]);
      }
    }
    if DependenciesDone(p.nodes) {
      forall i | 0 <= i < |g| && UnderWay(g[i]) ensures AllDone(g[i].deps, g) {
        assert AllDone(p.nodes[i].deps, p.nodes);
      }
    }
  }

  lemma InvocationsAllowed(c: Book, p: Prep, order: seq<nat>)
    requires PreparedSide(p) && c.row.nodes == p.nodes && c.row.steps == p.steps
    requires forall n :: n in order ==> n in p.prepared
    ensures forall i :: 0 <= i < |order| ==> Allowed(c, Invocations(p.nodes, order)[i])
  {
    forall i | 0 <= i < |order| ensures Allowed(c, Invocations(p.nodes, order)[i]) {
      assert order[i] in p.prepared;
      var j :| 0 <= j < |p.prepared| && p.prepared[j] == order[i];
      assert PreparedAt(p, p.prepared[j]);
    }
  }

  lemma FinishEventsAreMarks(p: Prep, w: nat, o: Oracle)
    requires PreparedSide(p)
    ensures forall i :: 0 <= i < |p.prepared| ==> IsMark(FinishEvents(p.nodes, p.prepared, w, o)[i], |p.steps|)
  {
    forall i | 0 <= i < |p.prepared| ensures IsMark(FinishEvents(p.nodes, p.prepared, w, o)[i], |p.steps|) {
      assert PreparedAt(p, p.prepared[i]);
    }
  }

  /** Saving the prepared nodes is the write-ahead point: every node about to run is linked to a journaled step. */
  lemma SavePrepared(b: Book, p: Prep)
    requires PrepOk(b, p)
    ensures Safe(b, p.events + [SaveNodes(p.nodes)])
    ensures RunBook(b, p.events + [SaveNodes(p.nodes)]) == b.(row := Row(Active, p.nodes, p.steps))
  {
    SafeEnd(b, p.events);
    var c := RunBook(b, p.events);
    SaveSafe(c, None, Some(p.nodes));
    SafeAppend(b, p.events, [SaveNodes(p.nodes)]);
  }

  /** The steps after a wave recorded its results. */
  function DoneSteps(p: Prep, w: nat, o: Oracle): seq<Step> {
    RunRow(Row(Active, p.nodes, p.steps), FinishEvents(p.nodes, p.prepared, w, o)).steps
  }

  lemma DoneKeepsPlan(p: Prep, w: nat, o: Oracle)
    requires PlanOk(p.nodes, |p.steps|) && PreparedSide(p)
    ensures PlanOk(DoneNodes(p.nodes, p.prepared, w, o), |p.steps|)
    ensures NodesEvolve(p.nodes, DoneNodes(p.nodes, p.prepared, w, o))
    ensures DependenciesDone(p.nodes) ==> DependenciesDone(DoneNodes(p.nodes, p.prepared, w, o))
  {
    FinishKeepsPlan(p, w, o);
    RefreshKeepsPlan(FinishedNodes(p.nodes, p.prepared, w, o), |p.steps|);
    EvolveTransitive(p.nodes, FinishedNodes(p.nodes, p.prepared, w, o), DoneNodes(p.nodes, p.prepared, w, o));
  }

  lemma ExecutionSafe(c: Book, p: Prep, w: nat, o: Oracle)
    requires Good(c) && c.row == Row(Active, p.nodes, p.steps)
    requires PreparedSide(p) && p.prepared != [] && (!c.slipped ==> DependenciesDone(p.nodes))
    ensures Safe(c, Execution(p.nodes, p.prepared, w, o))
    ensures RunBook(c, Execution(p.nodes, p.prepared, w, o)) ==
      c.(row := Row(Active, DoneNodes(p.nodes, p.prepared, w, o), DoneSteps(p, w, o)),
         log := c.log + Invocations(p.nodes, CallOrder(p.prepared, w, o)))
    ensures |DoneSteps(p, w, o)| == |p.steps|
  {
    var calls := Invocations(p.nodes, CallOrder(p.prepared, w, o));
    var marks := FinishEvents(p.nodes, p.prepared, w, o);
    InvocationsAllowed(c, p, CallOrder(p.prepared, w, o));
    CallsSafe(c, calls);
    SafeEnd(c, calls);
    var d := c.(log := c.log + calls);
    FinishEventsAreMarks(p, w, o);
    MarksSafe(d, marks);
    SafeEnd(d, marks);
    DoneKeepsPlan(p, w, o);
    SaveSafe(RunBook(d, marks), None, Some(DoneNodes(p.nodes, p.prepared, w, o)));
    SafeAppend(c, calls, marks);
    SafeAppend(c, calls + marks, [SaveNodes(DoneNodes(p.nodes, p.prepared, w, o))]);
  }

  lemma RanSafe(b: Book, p: Prep, w: nat, o: Oracle)
    requires PrepOk(b, p) && p.prepared != []
    ensures var ran := p.events + [SaveNodes(p.nodes)] + Execution(p.nodes, p.prepared, w, o);
      && Safe(b, ran)
      && RunBook(b, ran) == b.(row := Row(Active, DoneNodes(p.nodes, p.prepared, w, o), DoneSteps(p, w, o)),
                               log := b.log + Invocations(p.nodes, CallOrder(p.prepared, w, o)))
  {
    SavePrepared(b, p);
    SafeEnd(b, p.events + [SaveNodes(p.nodes)]);
    ExecutionSafe(b.(row := Row(Active, p.nodes, p.steps)), p, w, o);
    SafeAppend(b, p.events + [SaveNodes(p.nodes)], Execution(p.nodes, p.prepared, w, o));
  }

  lemma StopSafe(b: Book, status: SagaStatus)
    requires Good(b) && b.row.status.Active? && (status.Failed? || status.RecoveryRequired?)
    ensures Safe(b, [SetStatus(status)])
  {
    SaveSafe(b, Some(status), None);
  }

  lemma WaveSafe(b: Book, maxParallel: int, budget: int, w: nat, o: Oracle)
    requires Good(b) && b.row.status.Active? && maxParallel >= 1 && budget >= 1
    ensures Safe(b, RunWave(b.row, maxParallel, budget, w, o).events)
    ensures RunWave(b.row, maxParallel, budget, w, o).verdict.Continued? ==>
      RunBook(b, RunWave(b.row, maxParallel, budget, w, o).events).row.status.Active?
    ensures Good(RunBook(b, RunWave(b.row, maxParallel, budget, w, o).events))
    ensures RunBook(b, RunWave(b.row, maxParallel, budget, w, o).events).row
         == RunRow(b.row, RunWave(b.row, maxParallel, budget, w, o).events)
  {
    WaveSafeCases(b, maxParallel, budget, w, o);
    SafeEnd(b, RunWave(b.row, maxParallel, budget, w, o).events);
    RowOfBook(b, RunWave(b.row, maxParallel, budget, w, o).events);
  }

  lemma WaveSafeCases(b: Book, maxParallel: int, budget: int, w: nat, o: Oracle)
    requires Good(b) && b.row.status.Active? && maxParallel >= 1 && budget >= 1
    ensures Safe(b, RunWave(b.row, maxParallel, budget, w, o).events)
    ensures RunWave(b.row, maxParallel, budget, w, o).verdict.Continued? ==>
      RunBook(b, RunWave(b.row, maxParallel, budget, w, o).events).row.status.Active?
  {
    var wave := RunWave(b.row, maxParallel, budget, w, o);
    var p := Prepared(b.row, maxParallel, budget, w, o);
    PreparedOk(b, maxParallel, budget, w, o);
    match wave.verdict
    case Idle =>
      RefreshKeepsPlan(b.row.nodes, |b.row.steps|);
      SaveSafe(b, None, Some(Refresh(b.row.nodes)));
    case Aborted =>
    case Stuck => SavePrepared(b, p);
    case WaveFailed =>
      RanSafe(b, p, w, o);
      var ran := p.events + [SaveNodes(p.nodes)] + Execution(p.nodes, p.prepared, w, o);
      SafeEnd(b, ran);
      StopSafe(RunBook(b, ran), FailureStatus(p.nodes, p.prepared, w, o));
      SafeAppend(b, ran, [SetStatus(FailureStatus(p.nodes, p.prepared, w, o))]);
    case Continued => RanSafe(b, p, w, o);
  }

  /** Every wave the loop may meet is safe. */
  ghost predicate SafeWaves(f: Waves) {
    forall b: Book, budget: int, w: nat {:trigger SafeWave(b, f(b.row, budget, w))} ::
      Good(b) && b.row.status.Active? && budget >= 1 ==> SafeWave(b, f(b.row, budget, w))
  }

  ghost predicate SafeWave(b: Book, wave: Wave) {
    && Safe(b, wave.events)
    && Good(RunBook(b, wave.events))
    && RunBook(b, wave.events).row == RunRow(b.row, wave.events)
    && (wave.verdict.Continued? ==> RunBook(b, wave.events).row.status.Active?)
  }

  lemma {:induction false} LoopSafe(f: Waves, b: Book, budget: int, w: nat)
    requires SafeWaves(f) && Good(b) && b.row.status.Active?
    ensures Safe(b, Loop(f, b.row, budget, w))
    decreases budget
  {
    if budget > 0 {
      var wave := f(b.row, budget, w);
      assert SafeWave(b, wave);
      if wave.verdict.Continued? && |wave.prepared| > 0 {
        LoopSafe(f, RunBook(b, wave.events), budget - |wave.prepared|, w + 1);
        SafeAppend(b, wave.events, Loop(f, RunRow(b.row, wave.events), budget - |wave.prepared|, w + 1));
      }
    }
  }

  lemma RunSafe(b: Book, maxParallel: int, maxSteps: int, o: Oracle)
    requires Good(b)
    ensures Safe(b, RunProgram(b.row, maxParallel, maxSteps, o))
  {
    if RunAllowed(b.row, maxParallel, maxSteps) {
      var f := WavesOf(maxParallel, o);
      forall c: Book, budget: int, w: nat | Good(c) && c.row.status.Active? && budget >= 1
        ensures SafeWave(c, f(c.row, budget, w))
      {
        WaveSafe(c, maxParallel, budget, w, o);
      }
      LoopSafe(f, b, maxSteps, 0);
    }
  }

  // ---- execute ----

  lemma ExecuteFailureSafe(d: Book, k: nat, status: SagaStatus)
    requires Good(d) && d.row.status.Active? && k < |d.row.steps| && (status.Failed? || status.RecoveryRequired?)
    ensures Safe(d, [Mark(k, StepStatus.Failed), SetStatus(status)])
  {
    MarkSafe(d, k, StepStatus.Failed, None);
    SafeEnd(d, [Mark(k, StepStatus.Failed)]);
    StopSafe(RunBook(d, [Mark(k, StepStatus.Failed)]), status);
    SafeAppend(d, [Mark(k, StepStatus.Failed)], [SetStatus(status)]);
    assert [Mark(k, StepStatus.Failed)] + [SetStatus(status)] == [Mark(k, StepStatus.Failed), SetStatus(status)];
  }

  lemma ExecuteCallsSafe(b: Book, contract: Contract, n: nat)
    requires Good(b) && b.row.status.Active?
    ensures var events := [Write(NewStep(FreshStep(contract)))] + Attempts(None, |b.row.steps|, n);
      && Safe(b, events)
      && RunBook(b, events) == b.(row := b.row.(steps := b.row.steps + [FreshStep(contract)]),
                                  log := b.log + Attempts(None, |b.row.steps|, n))
      && Good(RunBook(b, events))
  {
    var intent := [Write(NewStep(FreshStep(contract)))];
    var calls := Attempts(None, |b.row.steps|, n);
    NewStepSafe(b, FreshStep(contract));
    SafeEnd(b, intent);
    CallsSafe(RunBook(b, intent), calls);
    SafeAppend(b, intent, calls);
    SafeEnd(b, intent + calls);
  }

  /** The step of `execute` is journaled before its first attempt. */
  lemma ExecuteSafe(b: Book, contract: Option<Contract>, o: Oracle)
    requires Good(b)
    ensures Safe(b, ExecuteProgram(b.row, contract, o))
  {
    if b.row.status.Active? && contract.Some? {
      var k := |b.row.steps|;
      var begun := [Write(NewStep(FreshStep(contract.value)))] + Attempts(None, k, TriesFrom(1, o.forward));
      ExecuteCallsSafe(b, contract.value, TriesFrom(1, o.forward));
      var d := RunBook(b, begun);
      if Wins(o.forward) {
        MarkSafe(d, k, StepStatus.Completed, None);
        SafeAppend(b, begun, [Mark(k, StepStatus.Completed)]);
      } else {
        var status := if contract.value.failureMode == Some(Pause) then RecoveryRequired else SagaStatus.Failed;
        ExecuteFailureSafe(d, k, status);
        SafeAppend(b, begun, [Mark(k, StepStatus.Failed), SetStatus(status)]);
      }
    }
  }
}
