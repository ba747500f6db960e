/** The crash recovery exists for: a worker that dies after a forward call and before its result is recorded
    leaves a saga that a sweep closes. */
module Crashes {
  import opened Types
  import opened AbstractStore
  import opened Engine
  import opened Programs
  import opened Ledger
  import opened WaveSafety
  import opened RunResults
  import opened RollbackResults
  import opened Interleaving

  /** Whenever a forward call is made, the saga is ACTIVE and the step called is journaled as EXECUTING. */
  ghost predicate Announced(row: Row, e: Event) {
    e.Invoke? ==> row.status.Active? && e.k < |row.steps| && row.steps[e.k].status.Executing?
  }

  ghost predicate AnnouncedAlong(row: Row, events: seq<Event>)
    decreases |events|
  {
    events != [] ==> Announced(row, events[0]) && AnnouncedAlong(After(row, events[0]), events[1..])
  }

  lemma {:induction false} AnnouncedAppend(row: Row, a: seq<Event>, c: seq<Event>)
    requires AnnouncedAlong(row, a) && AnnouncedAlong(RunRow(row, a), c)
    ensures AnnouncedAlong(row, a + c)
    decreases |a|
  {
    if a == [] {
      assert a + c == c;
    } else {
      assert (a + c)[1..] == a[1..] + c;
      AnnouncedAppend(After(row, a[0]), a[1..], c);
    }
  }

  lemma {:induction false} NoCallsAnnounced(row: Row, events: seq<Event>)
    requires forall i :: 0 <= i < |events| ==> !events[i].Invoke?
    ensures AnnouncedAlong(row, events)
    decreases |events|
  {
    if events != [] { NoCallsAnnounced(After(row, events[0]), events[1..]); }
  }

  lemma {:induction false} CallsAnnounced(row: Row, calls: seq<Event>)
    requires forall i :: 0 <= i < |calls| ==> calls[i].Invoke? && Announced(row, calls[i])
    ensures AnnouncedAlong(row, calls) && RunRow(row, calls) == row
    decreases |calls|
  {
    if calls != [] {
      assert calls[0].Invoke? && Announced(row, calls[0]);
      CallsAnnounced(row, calls[1..]);
    }
  }

  lemma ExecutionAnnounced(row: Row, p: Prep, w: nat, o: Oracle)
    requires PreparedSide(p) && p.prepared != [] && row.status.Active? && row.nodes == p.nodes && row.steps == p.steps
    ensures AnnouncedAlong(row, Execution(p.nodes, p.prepared, w, o))
  {
    var order := CallOrder(p.prepared, w, o);
    var calls := Invocations(p.nodes, order);
    var rest := FinishEvents(p.nodes, p.prepared, w, o) + [SaveNodes(DoneNodes(p.nodes, p.prepared, w, o))];
    forall i | 0 <= i < |calls| ensures calls[i].Invoke? && Announced(row, calls[i]) {
      assert order[i] in order;
      var j :| 0 <= j < |p.prepared| && p.prepared[j] == order[i];
      assert PreparedAt(p, p.prepared[j]);
    }
    CallsAnnounced(row, calls);
    NoCallsAnnounced(row, rest);
    AnnouncedAppend(row, calls, rest);
    assert Execution(p.nodes, p.prepared, w, o) == calls + rest;
  }

  lemma RanAnnounced(row: Row, p: Prep, w: nat, o: Oracle, status: SagaStatus)
    requires PrepOk(Bare(row), p) && p.prepared != []
    requires forall i :: 0 <= i < |p.events| ==> p.events[i].Write?
    ensures var ran := p.events + [SaveNodes(p.nodes)] + Execution(p.nodes, p.prepared, w, o);
      AnnouncedAlong(row, ran) && AnnouncedAlong(row, ran + [SetStatus(status)])
  {
    var saved, run := p.events + [SaveNodes(p.nodes)], Execution(p.nodes, p.prepared, w, o);
    NoCallsAnnounced(row, saved);
    SavePrepared(Bare(row), p);
    RowOfBook(Bare(row), saved);
    ExecutionAnnounced(RunRow(row, saved), p, w, o);
    AnnouncedAppend(row, saved, run);
    NoCallsAnnounced(RunRow(row, saved + run), [SetStatus(status)]);
    AnnouncedAppend(row, saved + run, [SetStatus(status)]);
  }

  ghost predicate AnnouncedWave(row: Row, wave: Wave) {
    AnnouncedAlong(row, wave.events) && (wave.verdict.Continued? ==> Runs(RunRow(row, wave.events)))
  }

  lemma WaveAnnounced(row: Row, maxParallel: int, budget: int, w: nat, o: Oracle)
    requires Runs(row) && maxParallel >= 1 && budget >= 1
    ensures AnnouncedWave(row, RunWave(row, maxParallel, budget, w, o))
  {
    var wave, p := RunWave(row, maxParallel, budget, w, o), Prepared(row, maxParallel, budget, w, o);
    PreparationHolds(row, maxParallel, budget, w, o);
    PreparedWrites(row, maxParallel, budget, w, o);
    if wave.verdict.WaveFailed? || wave.verdict.Continued? {
      RanAnnounced(row, p, w, o, FailureStatus(p.nodes, p.prepared, w, o));
    } else {
      NoCallsAnnounced(row, wave.events);
    }
    if wave.verdict.Continued? { ContinuedPlan(row, maxParallel, budget, w, o); }
  }

  lemma PreparedWrites(row: Row, maxParallel: int, budget: int, w: nat, o: Oracle)
    requires maxParallel >= 1 && budget >= 1
    ensures var events := Prepared(row, maxParallel, budget, w, o).events;
      forall i :: 0 <= i < |events| ==> events[i].Write?
  {
    var nodes := Refresh(row.nodes);
    var ready := ReadyNodes(nodes);
    PrepareWrites(Prep(nodes, row.steps, [], [], false), ready[..Min(Min(maxParallel, budget), |ready|)], w, o);
  }

  ghost predicate AnnouncedWaves(f: Waves) {
    forall row: Row, budget: int, w: nat {:trigger AnnouncedWave(row, f(row, budget, w))} ::
      Runs(row) && budget >= 1 ==> AnnouncedWave(row, f(row, budget, w))
  }

  lemma {:induction false} LoopAnnounced(f: Waves, row: Row, budget: int, w: nat)
    requires AnnouncedWaves(f) && Runs(row)
    ensures AnnouncedAlong(row, Loop(f, row, budget, w))
    decreases budget
  {
    if budget > 0 {
      var wave := f(row, budget, w);
      assert AnnouncedWave(row, f(row, budget, w));
      if wave.verdict.Continued? && |wave.prepared| > 0 {
        var mid, left := RunRow(row, wave.events), budget - |wave.prepared|;
        LoopAnnounced(f, mid, left, w + 1);
        AnnouncedAppend(row, wave.events, Loop(f, mid, left, w + 1));
      }
    }
  }

  lemma RunAnnounced(row: Row, maxParallel: int, maxSteps: int, o: Oracle)
    requires PlanOk(row.nodes, |row.steps|)
    ensures AnnouncedAlong(row, RunProgram(row, maxParallel, maxSteps, o))
  {
    if RunAllowed(row, maxParallel, maxSteps) {
      var f := WavesOf(maxParallel, o);
      forall r: Row, budget: int, w: nat | Runs(r) && budget >= 1 ensures AnnouncedWave(r, f(r, budget, w)) {
        WaveAnnounced(r, maxParallel, budget, w, o);
      }
      LoopAnnounced(f, row, maxSteps, 0);
    }
  }

  lemma ExecuteAnnounced(row: Row, contract: Option<Contract>, o: Oracle)
    ensures AnnouncedAlong(row, ExecuteProgram(row, contract, o))
  {
    if row.status.Active? && contract.Some? {
      var k, begun := |row.steps|, [Write(NewStep(FreshStep(contract.value)))];
      var calls := Attempts(None, k, TriesFrom(1, o.forward));
      var program := ExecuteProgram(row, contract, o);
      var rest := program[1 + |calls|..];
      NoCallsAnnounced(row, begun);
      RunSnoc(row, [], begun[0]);
      assert [] + begun == begun;
      CallsAnnounced(RunRow(row, begun), calls);
      NoCallsAnnounced(RunRow(row, begun), rest);
      AnnouncedAppend(RunRow(row, begun), calls, rest);
      AnnouncedAppend(row, begun, calls + rest);
      assert program == begun + (calls + rest);
    }
  }

  /** In every operation a forward call is announced. */
  lemma ProgramAnnounced(row: Row, op: Op, o: Oracle)
    requires PlanOk(row.nodes, |row.steps|)
    ensures AnnouncedAlong(row, Program(op, row, o))
  {
    match op
    case Execute(contract) => ExecuteAnnounced(row, contract, o);
    case RunReady(maxParallel, maxSteps) => RunAnnounced(row, maxParallel, maxSteps, o);
    case RollBack => PassAnnounced(row, o);
    case Recover => PassAnnounced(row, o);
    case _ => NoCallsAnnounced(row, Program(op, row, o));
  }

  lemma {:induction false} LoopNoInvokes(k: nat, i: nat, maxAttempts: int, attempt: nat -> Outcome, last: string)
    requires i >= 1
    ensures forall j :: 0 <= j < |CompensateFrom(k, i, maxAttempts, attempt, last)| ==>
      !CompensateFrom(k, i, maxAttempts, attempt, last)[j].Invoke?
    decreases maxAttempts - i + 1
  {
    if i <= maxAttempts && attempt(i).Raised? { LoopNoInvokes(k, i + 1, maxAttempts, attempt, attempt(i).message); }
  }

  lemma {:induction false} RepairsNoInvokes(ks: seq<nat>, o: Oracle)
    ensures forall j :: 0 <= j < |Repairs(ks, o)| ==> !Repairs(ks, o)[j].Invoke?
  {
    if ks != [] {
      var r := o.repair(ks[0]);
      if r.Resolved? { LoopNoInvokes(ks[0], 1, r.maxAttempts, r.attempt, ""); }
      RepairsNoInvokes(ks[1..], o);
    }
  }

  lemma PassAnnounced(row: Row, o: Oracle)
    ensures AnnouncedAlong(row, RollbackProgram(row, o)) && AnnouncedAlong(row, RecoverProgram(row, o))
  {
    RepairsNoInvokes(Listed(row.steps), o);
    NoCallsAnnounced(row, RollbackProgram(row, o));
    NoCallsAnnounced(row, RecoverProgram(row, o));
  }

  lemma {:induction false} AnnouncedAt(row: Row, events: seq<Event>, j: nat)
    requires AnnouncedAlong(row, events) && j < |events|
    ensures Announced(RunRow(row, events[..j]), events[j])
    decreases j
  {
    if j == 0 {
      assert events[..0] == [];
    } else {
      AnnouncedAt(After(row, events[0]), events[1..], j - 1);
      assert events[..j][1..] == events[1..][..j - 1];
    }
  }

  lemma {:induction false} QuietSince(row: Row, events: seq<Event>, j: nat, n: nat)
    requires j <= n <= |events| && forall i :: j <= i < n ==> !events[i].Write?
    ensures RunRow(row, events[..n]) == RunRow(row, events[..j])
    decreases n
  {
    if j < n {
      QuietSince(row, events, j, n - 1);
      RunSnoc(row, events[..n - 1], events[n - 1]);
      assert events[..n] == events[..n - 1] + [events[n - 1]];
    }
  }

  /** Cut after a forward call and before anything more is written: the saga is ACTIVE, the step called is
      EXECUTING, and a sweep whose repairs are sound claims it and closes it. */
  lemma CrashIsRecovered(row: Row, op: Op, o: Oracle, j: nat, n: nat, repairs: Oracle)
    requires PlanOk(row.nodes, |row.steps|) && (op.Recover? ==> !Terminal(row.status))
    requires j < n <= |Program(op, row, o)| && Program(op, row, o)[j].Invoke?
    requires forall i :: j < i < n ==> !Program(op, row, o)[i].Write?
    requires forall k :: !Slips(repairs.repair(k))
    ensures var cut, k := RunRow(row, Program(op, row, o)[..n]), Program(op, row, o)[j].k;
      && cut.status.Active? && k < |cut.steps| && cut.steps[k].status.Executing?
      && var after := Swept(cut, repairs);
         && (after.status.RolledBack? || after.status.RollbackFailed? || after.status.RecoveryRequired?)
         && (forall m :: 0 <= m < |after.nodes| ==> !after.nodes[m].status.Executing?)
         && (after.status.RolledBack? ==> k < |after.steps| && after.steps[k].status.Compensated?)
  {
    var program := Program(op, row, o);
    var cut, k := RunRow(row, program[..n]), program[j].k;
    ProgramAnnounced(row, op, o);
    AnnouncedAt(row, program, j);
    QuietSince(row, program, j, n);
    CutPlanOk(row, op, o, n);
    SweepClosesIffPending(cut, repairs);
    RecoveryCloses(cut, repairs);
    if Swept(cut, repairs).status.RolledBack? {
      PassVerdict(cut, repairs);
      assert StepPassed(cut, RolledBackRow(cut, repairs), repairs, k);
    }
  }

  lemma CutPlanOk(row: Row, op: Op, o: Oracle, n: nat)
    requires PlanOk(row.nodes, |row.steps|) && (op.Recover? ==> !Terminal(row.status)) && n <= |Program(op, row, o)|
    requires RunRow(row, Program(op, row, o)[..n]).status.Active?
    ensures PlanOk(RunRow(row, Program(op, row, o)[..n]).nodes, |RunRow(row, Program(op, row, o)[..n]).steps|)
  {
    var b := Bare(row);
    if row.status.Committed? && !AllCompleted(row.nodes) {
      NothingOnTerminal(row, op, o);
    } else {
      ProgramSafe(b, op, o);
      SafeCut(b, Program(op, row, o), n);
      RowOfBook(b, Program(op, row, o)[..n]);
    }
  }

  lemma NothingOnTerminal(row: Row, op: Op, o: Oracle)
    requires row.status.Committed? && !op.Recover?
    ensures Program(op, row, o) == []
  {
  }
}
