/** The coordinator's operations as they run under one lease: every method leaves the stored row
    and the trace of its writes and calls exactly as the program of its operation says, and so keeps
    the invariant of module Interleaving wherever it is cut short. */
module CoordinatorClass {
  import opened Types
  import opened AbstractStore
  import opened Engine
  import opened Programs
  import opened Backoff
  import opened RollbackSafety
  import opened RunResults
  import opened Ledger
  import opened Interleaving
  import opened RollbackResults
  import Aborts
  import Decisions
  import RunEnds

  /** `_refresh_nodes`: one pass over the node table, in place. */
  method RefreshNodes(nodes: seq<Node>) returns (r: seq<Node>)
    ensures r == Refresh(nodes)
  {
    r := nodes;
    for i := 0 to |nodes|
      invariant r == RefreshAlong(nodes, Upto(i))
    {
      assert Upto(i + 1)[..i] == Upto(i);
      if r[i].status.WaitingDependency? || r[i].status.Blocked? {
        var dep := DependencyStatus(r[i], r);
        match dep
        case DepBlocked => r := r[i := r[i].(status := NodeStatus.Blocked)];
        case DepWaiting => r := r[i := r[i].(status := WaitingDependency)];
        case DepReady =>
          var approved := !r[i].approvalRequired || r[i].approval.Approved?;
          r := r[i := r[i].(status := if approved then Ready else WaitingApproval)];
      }
    }
  }

  lemma Extend(t: seq<Event>, a: seq<Event>, c: seq<Event>)
    ensures (t + a) + c == t + (a + c)
  {
  }

  /** The trace of a wave that was prepared, put together from its parts. */
  lemma WaveAssembled(t: seq<Event>, row: Row, maxParallel: int, budget: int, w: nat, o: Oracle)
    requires maxParallel >= 1 && budget >= 1 && ReadyNodes(Refresh(row.nodes)) != []
    requires !Prepared(row, maxParallel, budget, w, o).aborted
    ensures var p, wave := Prepared(row, maxParallel, budget, w, o), RunWave(row, maxParallel, budget, w, o);
      var saved := t + p.events + [SaveNodes(p.nodes)];
      && wave.prepared == p.prepared
      && (p.prepared == [] ==> wave.verdict.Stuck? && saved == t + wave.events)
      && (p.prepared != [] && !SomeFailed(p.prepared, w, o) ==>
            wave.verdict.Continued? && saved + Execution(p.nodes, p.prepared, w, o) == t + wave.events)
      && (p.prepared != [] && SomeFailed(p.prepared, w, o) ==>
            && wave.verdict.WaveFailed?
            && saved + Execution(p.nodes, p.prepared, w, o) + [SetStatus(FailureStatus(p.nodes, p.prepared, w, o))]
               == t + wave.events)
  {
    var p := Prepared(row, maxParallel, budget, w, o);
    Extend(t, p.events, [SaveNodes(p.nodes)]);
    if p.prepared != [] {
      var run := Execution(p.nodes, p.prepared, w, o);
      Extend(t, p.events + [SaveNodes(p.nodes)], run);
      Extend(t, p.events + [SaveNodes(p.nodes)] + run, [SetStatus(FailureStatus(p.nodes, p.prepared, w, o))]);
    }
  }

  /** The results of the members in `done` are recorded: `now` extends the trace `t` by their marks. */
  ghost predicate Recorded(t: seq<Event>, now: seq<Event>, nodes0: seq<Node>, nodes: seq<Node>, done: seq<nat>,
                           w: nat, o: Oracle, failed: bool, rollback: bool) {
    && now == t + FinishEvents(nodes0, done, w, o) && nodes == FinishedNodes(nodes0, done, w, o)
    && failed == SomeFailed(done, w, o) && rollback == RollbackAfter(nodes0, done, w, o)
  }

  lemma RecordedNone(t: seq<Event>, nodes: seq<Node>, w: nat, o: Oracle)
    ensures Recorded(t, t, nodes, nodes, [], w, o, false, false)
  {
    assert FinishedNodes(nodes, [], w, o) == nodes && t + FinishEvents(nodes, [], w, o) == t;
  }

  lemma RecordedSnoc(t: seq<Event>, now: seq<Event>, nodes0: seq<Node>, nodes: seq<Node>, done: seq<nat>, n: nat,
                     w: nat, o: Oracle, failed: bool, rollback: bool)
    requires Recorded(t, now, nodes0, nodes, done, w, o, failed, rollback) && n < |nodes0|
    ensures var success := o.Succeeds(w, n);
      Recorded(t, now + [FinishEvent(nodes0, n, w, o)], nodes0, nodes[n := Finished(nodes[n], success)],
               done + [n], w, o,
               failed || !success, rollback || (!success && RollsBack(nodes0[n])))
  {
    FinishedSnoc(nodes0, done, n, w, o);
    FailuresSnoc(nodes0, done, n, w, o);
    Extend(t, FinishEvents(nodes0, done, w, o), [FinishEvent(nodes0, n, w, o)]);
    assert FinishEvents(nodes0, done + [n], w, o) == FinishEvents(nodes0, done, w, o) + [FinishEvent(nodes0, n, w, o)];
  }

  datatype Recording = Recording(trace: seq<Event>, nodes: seq<Node>, failed: bool, rollback: bool)

  /** The state of the recording loop after `i` members. */
  ghost function RecordingAt(t: seq<Event>, nodes0: seq<Node>, prepared: seq<nat>, i: nat, w: nat, o: Oracle)
    : (r: Recording)
    requires i <= |prepared| && forall j :: 0 <= j < |prepared| ==> prepared[j] < |nodes0|
    ensures |r.nodes| == |nodes0|
  {
    if i == 0 then Recording(t, nodes0, false, false)
    else
      var before, n := RecordingAt(t, nodes0, prepared, i - 1, w, o), prepared[i - 1];
      var success := o.Succeeds(w, n);
      Recording(before.trace + [FinishEvent(nodes0, n, w, o)],
                before.nodes[n := Finished(before.nodes[n], success)],
                before.failed || !success, before.rollback || (!success && RollsBack(nodes0[n])))
  }

  lemma {:induction false} RecordingRecords(t: seq<Event>, nodes0: seq<Node>, prepared: seq<nat>, i: nat, w: nat,
                                            o: Oracle)
    requires i <= |prepared| && forall j :: 0 <= j < |prepared| ==> prepared[j] < |nodes0|
    ensures var r := RecordingAt(t, nodes0, prepared, i, w, o);
      Recorded(t, r.trace, nodes0, r.nodes, prepared[..i], w, o, r.failed, r.rollback)
  {
    if i == 0 {
      RecordedNone(t, nodes0, w, o);
    } else {
      RecordingRecords(t, nodes0, prepared, i - 1, w, o);
      RecordingGrows(t, nodes0, prepared, i - 1, prepared[..i - 1], prepared[..i], w, o);
    }
  }

  lemma RecordingGrows(t: seq<Event>, nodes0: seq<Node>, prepared: seq<nat>, i: nat, done: seq<nat>, more: seq<nat>,
                       w: nat, o: Oracle)
    requires i < |prepared| && forall j :: 0 <= j < |prepared| ==> prepared[j] < |nodes0|
    requires more == done + [prepared[i]]
    requires var r := RecordingAt(t, nodes0, prepared, i, w, o);
      Recorded(t, r.trace, nodes0, r.nodes, done, w, o, r.failed, r.rollback)
    ensures var r := RecordingAt(t, nodes0, prepared, i + 1, w, o);
      Recorded(t, r.trace, nodes0, r.nodes, more, w, o, r.failed, r.rollback)
  {
    var r := RecordingAt(t, nodes0, prepared, i, w, o);
    RecordedSnoc(t, r.trace, nodes0, r.nodes, done, prepared[i], w, o, r.failed, r.rollback);
  }

  lemma RecordingEnds(t: seq<Event>, nodes0: seq<Node>, prepared: seq<nat>, w: nat, o: Oracle)
    requires forall j :: 0 <= j < |prepared| ==> prepared[j] < |nodes0|
    ensures var r := RecordingAt(t, nodes0, prepared, |prepared|, w, o);
      && r.trace == t + FinishEvents(nodes0, prepared, w, o) && r.nodes == FinishedNodes(nodes0, prepared, w, o)
      && r.failed == SomeFailed(prepared, w, o) && r.rollback == RollbackAfter(nodes0, prepared, w, o)
  {
    RecordingRecords(t, nodes0, prepared, |prepared|, w, o);
    assert prepared[..|prepared|] == prepared;
  }

  /** One attempt of a compensation loop takes the trace one event closer to its goal. */
  lemma AttemptRecorded(t: seq<Event>, k: nat, i: nat, maxAttempts: int, attempt: nat -> Outcome, last: string)
    requires 1 <= i <= maxAttempts
    ensures var left := CompensateFrom(k, i, maxAttempts, attempt, last);
      match attempt(i)
      case Succeeded => (t + [Compensate(k, true)]) + [Write(SetStep(k, StepStatus.Compensated, Some(i)))] == t + left
      case Raised(message) =>
        (t + [Compensate(k, false)]) + CompensateFrom(k, i + 1, maxAttempts, attempt, message) == t + left
  {
  }

  lemma FinishedSnoc(nodes: seq<Node>, prepared: seq<nat>, n: nat, w: nat, o: Oracle)
    requires n < |nodes|
    ensures var done := FinishedNodes(nodes, prepared, w, o);
      FinishedNodes(nodes, prepared + [n], w, o) == done[n := Finished(done[n], o.Succeeds(w, n))]
  {
  }

  lemma FailuresSnoc(nodes: seq<Node>, prepared: seq<nat>, n: nat, w: nat, o: Oracle)
    requires n < |nodes|
    ensures SomeFailed(prepared + [n], w, o) <==> SomeFailed(prepared, w, o) || !o.Succeeds(w, n)
    ensures RollbackAfter(nodes, prepared + [n], w, o) <==>
            RollbackAfter(nodes, prepared, w, o) || (!o.Succeeds(w, n) && RollsBack(nodes[n]))
  {
    assert n in prepared + [n];
    assert forall m :: m in prepared ==> m in prepared + [n];
  }

  lemma {:induction false} RepairsSnoc(ks: seq<nat>, k: nat, o: Oracle)
    ensures Repairs(ks + [k], o) == Repairs(ks, o) + RepairOne(k, o.repair(k))
  {
    if ks == [] {
      assert Repairs([k], o) == RepairOne(k, o.repair(k)) + Repairs([], o);
    } else {
      assert (ks + [k])[1..] == ks[1..] + [k];
      RepairsSnoc(ks[1..], k, o);
      Extend(RepairOne(ks[0], o.repair(ks[0])), Repairs(ks[1..], o), RepairOne(k, o.repair(k)));
    }
  }

  lemma AnyFailsSnoc(ks: seq<nat>, k: nat, o: Oracle)
    ensures AnyFails(ks + [k], o) <==> AnyFails(ks, o) || Fails(o.repair(k))
  {
    if Fails(o.repair(k)) { assert k in ks + [k]; }
    if AnyFails(ks, o) {
      var j :| j in ks && Fails(o.repair(j));
      assert j in ks + [k];
    }
  }

  /** A coordinator holding the lease of one saga. `row` is what the store holds. */
  class Coordinator {
    var row: Row
    ghost const origin: Row
    ghost var trace: seq<Event>

    ghost predicate Valid()
      reads this
    {
      row == RunRow(origin, trace)
    }

    constructor (row: Row)
      ensures Valid() && this.row == row && origin == row && trace == []
    {
      this.row := row;
      origin := row;
      trace := [];
    }

    method Emit(e: Event)
      requires Valid()
      modifies this
      ensures Valid() && trace == old(trace) + [e] && row == After(old(row), e)
    {
      RunSnoc(origin, trace, e);
      if e.Write? {
        row := Apply(row, e.change);
      }
      trace := trace + [e];
    }

    /** `_invoke_forward`: calls the action until it succeeds or the attempts run out, always for
        the same step, sleeping between attempts. */
    method InvokeForward(node: Option<nat>, k: nat, f: Forward, p: RetryPolicy, unit: nat -> real)
      returns (success: bool, attempts: nat, slept: real)
      requires Valid()
      modifies this
      ensures Valid() && row == old(row)
      ensures trace == old(trace) + Attempts(node, k, TriesFrom(1, f))
      ensures success == Wins(f)
      ensures success ==> attempts == TriesFrom(1, f) && f.attempt(attempts).Succeeded?
      ensures !success ==> attempts == f.maxAttempts
      ensures slept == Sum(Delays(p, unit), 1, if TriesFrom(1, f) == 0 then 1 else TriesFrom(1, f))
    {
      success, attempts, slept := false, f.maxAttempts, 0.0;
      var i := 1;
      assert trace == trace + Attempts(node, k, 0);
      while i <= f.maxAttempts
        invariant 1 <= i <= f.maxAttempts + 1
        invariant Valid() && row == old(row)
        invariant trace == old(trace) + Attempts(node, k, i - 1)
        invariant TriesFrom(1, f) == i - 1 + TriesFrom(i, f)
        invariant forall j :: 1 <= j < i ==> f.attempt(j).Raised?
        invariant slept == Sum(Delays(p, unit), 1, if i <= f.maxAttempts then i else if i == 1 then 1 else i - 1)
      {
        Emit(Invoke(node, k));
        assert Attempts(node, k, i) == Attempts(node, k, i - 1) + [Invoke(node, k)];
        if f.attempt(i).Succeeded? {
          return true, i, slept;
        }
        if i < f.maxAttempts {
          SumSnoc(Delays(p, unit), 1, i);
          slept := slept + Delay(p, i, unit(i));
        }
        i := i + 1;
      }
    }

    method Execute(contract: Option<Contract>, o: Oracle, p: RetryPolicy, unit: nat -> real) returns (ok: bool)
      requires Valid()
      modifies this
      ensures Valid()
      ensures trace == old(trace) + ExecuteProgram(old(row), contract, o)
      ensures ok <==> old(row).status.Active? && contract.Some? && Decisions.SomeSucceeds(o.forward)
      ensures if old(row).status.Active? && contract.Some?
              then Decisions.Executed(old(row), row, contract.value, ok) else row == old(row)
    {
      RowAppends(origin, trace, ExecuteProgram(row, contract, o));
      Decisions.ExecuteMeaning(row, contract, o);
      if !row.status.Active? || contract.None? {
        assert trace == old(trace) + [];
        return false;
      }
      var k := |row.steps|;
      Emit(Write(NewStep(FreshStep(contract.value))));
      var success, attempts, slept := InvokeForward(None, k, o.forward, p, unit);
      if success {
        Emit(Mark(k, StepStatus.Completed));
        return true;
      }
      Emit(Mark(k, StepStatus.Failed));
      Emit(SetStatus(if contract.value.failureMode == Some(Pause) then RecoveryRequired else SagaStatus.Failed));
      return false;
    }

    method PlanStep(q: PlanRequest) returns (ok: bool)
      requires Valid()
      modifies this
      ensures Valid() && ok == Decisions.MayPlan(old(row), q)
      ensures trace == old(trace) + PlanProgram(old(row), q)
      ensures !ok ==> row == old(row)
      ensures ok && PlanOk(old(row).nodes, |old(row).steps|) ==> Decisions.Planned(old(row), row, q)
    {
      RowAppends(origin, trace, PlanProgram(row, q));
      Decisions.MayPlanIff(row, q);
      if PlanOk(row.nodes, |row.steps|) { Decisions.PlanMeaning(row, q); }
      if !PlanAllowed(row, q) {
        assert trace == old(trace) + [];
        return false;
      }
      var nodes := RefreshNodes(row.nodes + [PlannedNode(q)]);
      Emit(SaveNodes(nodes));
      return true;
    }

    method ApproveStep(n: nat, approved: bool) returns (ok: bool)
      requires Valid()
      modifies this
      ensures Valid() && ok == Decisions.MayDecide(old(row), n)
      ensures trace == old(trace) + ApproveProgram(old(row), n, approved)
      ensures if ok then Decisions.Decided(old(row), row, n, approved) else row == old(row)
    {
      RowAppends(origin, trace, ApproveProgram(row, n, approved));
      Decisions.ApproveMeaning(row, n, approved);
      if !ApprovalPending(row, n) {
        assert trace == old(trace) + [];
        return false;
      }
      var nodes := row.nodes;
      if approved {
        var dep := DependencyStatus(nodes[n], nodes);
        var next := if dep.DepReady? then Ready else WaitingDependency;
        nodes := nodes[n := nodes[n].(approval := Approved, status := next)];
        if row.status.RecoveryRequired? {
          Emit(SetStatus(Active));
        }
      } else {
        nodes := nodes[n := nodes[n].(approval := Refused, status := Rejected)];
        Emit(SetStatus(RecoveryRequired));
      }
      Emit(SaveNodes(nodes));
      return true;
    }

    method RetryStep(n: nat, force: bool) returns (ok: bool)
      requires Valid()
      modifies this
      ensures Valid() && ok == Decisions.MayRetry(old(row), n, force)
      ensures trace == old(trace) + RetryProgram(old(row), n, force)
      ensures !ok ==> row == old(row)
      ensures ok && Topological(old(row).nodes) ==> Decisions.Retried(old(row), row, n)
    {
      RowAppends(origin, trace, RetryProgram(row, n, force));
      Decisions.MayRetryIff(row, n, force);
      if Topological(row.nodes) { Decisions.RetryMeaning(row, n, force); }
      if !RetryAllowed(row, n, force) {
        assert trace == old(trace) + [];
        return false;
      }
      var nodes := row.nodes;
      if nodes[n].approvalRequired && !nodes[n].approval.Approved? {
        nodes := nodes[n := nodes[n].(approval := Pending, status := WaitingApproval, uncertain := false)];
      } else {
        var dep := DependencyStatus(nodes[n], nodes);
        var next := if dep.DepReady? then Ready else WaitingDependency;
        nodes := nodes[n := nodes[n].(status := next, uncertain := false)];
      }
      Emit(SetStatus(Active));
      nodes := RefreshNodes(nodes);
      Emit(SaveNodes(nodes));
      return true;
    }

    method Commit() returns (ok: bool)
      requires Valid()
      modifies this
      ensures Valid() && trace == old(trace) + CommitProgram(old(row))
      ensures ok <==> old(row).status.Active? &&
                      forall n :: 0 <= n < |old(row).nodes| ==> old(row).nodes[n].status.Completed?
      ensures row == if ok then old(row).(status := Committed) else old(row)
    {
      RowAppends(origin, trace, CommitProgram(row));
      Decisions.CommitMeaning(row);
      ok := row.status.Active? && AllCompleted(row.nodes);
      if ok {
        Emit(SetStatus(Committed));
      } else {
        assert trace == old(trace) + [];
      }
    }

    /** The preparation loop of a wave: journals a step for each member before any is called. */
    method PrepareWave(nodes0: seq<Node>, wave: seq<nat>, w: nat, o: Oracle)
      returns (nodes: seq<Node>, prepared: seq<nat>, raised: bool)
      requires Valid()
      requires forall i :: 0 <= i < |wave| ==> wave[i] < |nodes0|
      modifies this
      ensures Valid()
      ensures var p := Prepare(Prep(nodes0, old(row).steps, [], [], false), wave, w, o);
        && nodes == p.nodes && prepared == p.prepared && raised == p.aborted
        && row == old(row).(steps := p.steps)
        && trace == old(trace) + p.events
      ensures |nodes| == |nodes0| && forall i :: 0 <= i < |prepared| ==> prepared[i] < |nodes|
    {
      nodes, prepared, raised := nodes0, [], false;
      ghost var events := [];
      ghost var goal := Prepare(Prep(nodes0, row.steps, [], [], false), wave, w, o);
      assert wave == wave[0..];
      assert trace == trace + events;
      var i := 0;
      while i < |wave|
        invariant 0 <= i <= |wave| && |nodes| == |nodes0| && !raised
        invariant forall j :: 0 <= j < |prepared| ==> prepared[j] < |nodes|
        invariant Valid() && row == old(row).(steps := row.steps) && trace == old(trace) + events
        invariant Prepare(Prep(nodes, row.steps, events, prepared, false), wave[i..], w, o) == goal
      {
        var n := wave[i];
        ghost var p := Prep(nodes, row.steps, events, prepared, false);
        assert wave[i..][0] == n && wave[i..][1..] == wave[i + 1..];
        if !o.resolves(w, n) {
          raised := true;
          return;
        }
        if !o.valid(w, n) {
          nodes := nodes[n := nodes[n].(status := NodeStatus.Failed)];
        } else if nodes[n].stepNo.Some? && nodes[n].stepNo.value >= |row.steps| {
          nodes := nodes[n := nodes[n].(status := NodeStatus.Failed)];
        } else {
          var e := if nodes[n].stepNo.Some? then Mark(nodes[n].stepNo.value, StepStatus.Executing)
                   else Write(NewStep(FreshStep(nodes[n].contract)));
          var k := if nodes[n].stepNo.Some? then nodes[n].stepNo.value else |row.steps|;
          Emit(e);
          events := events + [e];
          nodes := nodes[n := nodes[n].(status := NodeStatus.Executing, stepNo := Some(k))];
          prepared := prepared + [n];
        }
        assert Prep(nodes, row.steps, events, prepared, false) == PrepareOne(p, n, w, o);
        i := i + 1;
      }
    }

    /** Forward calls of a prepared wave: the attempts still due, in whatever order the pool makes them. */
    method CallWave(nodes: seq<Node>, prepared: seq<nat>, w: nat, o: Oracle)
      requires Valid()
      modifies this
      ensures Valid() && row == old(row) && trace == old(trace) + Invocations(nodes, CallOrder(prepared, w, o))
    {
      ghost var order, t := CallOrder(prepared, w, o), trace;
      var due, i := Due(prepared, w, o), 0;
      assert t + Invocations(nodes, order[..0]) == t;
      while due != []
        invariant Valid() && row == old(row) && i + |due| == |order|
        invariant trace == t + Invocations(nodes, order[..i])
        invariant order[i..] == Interleaved(due, w, i, o)
        decreases |due|
      {
        var j := o.pick(w, i) % |due|;
        Emit(Call(nodes, due[j]));
        assert order[i] == due[j] && order[..i + 1] == order[..i] + [order[i]];
        assert Invocations(nodes, order[..i + 1]) == Invocations(nodes, order[..i]) + [Call(nodes, order[i])];
        assert order[i..][1..] == order[i + 1..];
        due := due[..j] + due[j + 1..];
        i := i + 1;
      }
      assert order[..i] == order;
    }

    /** Recording the results of a wave, node by node. */
    method RecordWave(nodes0: seq<Node>, prepared: seq<nat>, w: nat, o: Oracle)
      returns (nodes: seq<Node>, failed: bool, rollback: bool)
      requires Valid() && forall i :: 0 <= i < |prepared| ==> prepared[i] < |nodes0|
      modifies this
      ensures Valid() && trace == old(trace) + FinishEvents(nodes0, prepared, w, o)
      ensures nodes == FinishedNodes(nodes0, prepared, w, o)
      ensures failed == SomeFailed(prepared, w, o) && rollback == RollbackAfter(nodes0, prepared, w, o)
    {
      nodes, failed, rollback := nodes0, false, false;
      ghost var t := trace;
      for i := 0 to |prepared|
        invariant Valid() && |nodes| == |nodes0|
        invariant Recording(trace, nodes, failed, rollback) == RecordingAt(t, nodes0, prepared, i, w, o)
      {
        var n := prepared[i];
        var success := o.Succeeds(w, n);
        nodes := nodes[n := Finished(nodes[n], success)];
        Emit(Mark(StepOf(nodes0, n), if success then StepStatus.Completed else StepStatus.Failed));
        if !success {
          failed := true;
          rollback := rollback || RollsBack(nodes0[n]);
        }
      }
      RecordingEnds(t, nodes0, prepared, w, o);
    }

    /** One turn of the loop of `run_ready_steps`. */
    method RunOneWave(maxParallel: int, budget: int, w: nat, o: Oracle) returns (verdict: Verdict, started: nat)
      requires Valid() && maxParallel >= 1 && budget >= 1
      modifies this
      ensures Valid()
      ensures var wave := RunWave(old(row), maxParallel, budget, w, o);
        trace == old(trace) + wave.events && verdict == wave.verdict && started == |wave.prepared|
    {
      ghost var row0, t := row, trace;
      var nodes := RefreshNodes(row.nodes);
      var ready := ReadyNodes(nodes);
      if ready == [] {
        Emit(SaveNodes(nodes));
        return Idle, 0;
      }
      var prepared, raised;
      nodes, prepared, raised := PrepareWave(nodes, ready[..Min(Min(maxParallel, budget), |ready|)], w, o);
      if raised {
        return Aborted, |prepared|;
      }
      verdict := SaveAndFinish(nodes, prepared, w, o);
      WaveAssembled(t, row0, maxParallel, budget, w, o);
      started := |prepared|;
    }

    /** The rest of a turn, once its wave is prepared. */
    method SaveAndFinish(nodes: seq<Node>, prepared: seq<nat>, w: nat, o: Oracle) returns (verdict: Verdict)
      requires Valid() && forall i :: 0 <= i < |prepared| ==> prepared[i] < |nodes|
      modifies this
      ensures Valid()
      ensures prepared == [] ==> verdict.Stuck? && trace == old(trace) + [SaveNodes(nodes)]
      ensures prepared != [] && !SomeFailed(prepared, w, o) ==>
        verdict.Continued? && trace == old(trace) + [SaveNodes(nodes)] + Execution(nodes, prepared, w, o)
      ensures prepared != [] && SomeFailed(prepared, w, o) ==>
        verdict.WaveFailed? &&
        trace == old(trace) + [SaveNodes(nodes)] + Execution(nodes, prepared, w, o)
            + [SetStatus(FailureStatus(nodes, prepared, w, o))]
    {
      Emit(SaveNodes(nodes));
      if prepared == [] {
        return Stuck;
      }
      var failed, rollback := FinishWave(nodes, prepared, w, o);
      if failed {
        Emit(SetStatus(if rollback then SagaStatus.Failed else RecoveryRequired));
        return WaveFailed;
      }
      return Continued;
    }

    /** Calls, records and saves a prepared wave. */
    method FinishWave(nodes0: seq<Node>, prepared: seq<nat>, w: nat, o: Oracle) returns (failed: bool, rollback: bool)
      requires Valid() && prepared != [] && forall i :: 0 <= i < |prepared| ==> prepared[i] < |nodes0|
      modifies this
      ensures Valid() && trace == old(trace) + Execution(nodes0, prepared, w, o)
      ensures failed == SomeFailed(prepared, w, o) && rollback == RollbackAfter(nodes0, prepared, w, o)
    {
      ghost var t, calls := trace, Invocations(nodes0, CallOrder(prepared, w, o));
      ghost var marks := FinishEvents(nodes0, prepared, w, o);
      CallWave(nodes0, prepared, w, o);
      var nodes;
      nodes, failed, rollback := RecordWave(nodes0, prepared, w, o);
      nodes := RefreshNodes(nodes);
      Emit(SaveNodes(nodes));
      Extend(t, calls, marks);
      Extend(t, calls + marks, [SaveNodes(nodes)]);
    }

    /** The wave loop over the budget. */
    method RunWaves(maxParallel: int, maxSteps: int, o: Oracle, ghost f: Waves) returns (verdict: Verdict, started: nat)
      requires Valid() && maxParallel >= 1 && Realizes(f, maxParallel, o)
      modifies this
      ensures Valid()
      ensures trace == old(trace) + Loop(f, old(row), maxSteps, 0)
      ensures started == |LoopStarted(f, old(row), maxSteps, 0)|
      ensures verdict == Aborts.LoopVerdict(f, old(row), maxSteps, 0)
    {
      var budget, w := maxSteps, 0;
      verdict, started := Continued, 0;
      ghost var t, whole := trace, Loop(f, row, budget, w);
      ghost var done, rest, left := [], whole, |LoopStarted(f, row, budget, w)|;
      while budget > 0 && verdict.Continued?
        invariant Valid() && trace == t + done && done + rest == whole
        invariant started + left == |LoopStarted(f, old(row), maxSteps, 0)|
        invariant verdict.Continued? ==> rest == Loop(f, row, budget, w) && left == |LoopStarted(f, row, budget, w)|
        invariant !verdict.Continued? ==> rest == [] && left == 0
        invariant Aborts.LoopVerdict(f, old(row), maxSteps, 0)
               == if verdict.Continued? then Aborts.LoopVerdict(f, row, budget, w) else verdict
        decreases budget, verdict.Continued?
      {
        ghost var wave := f(row, budget, w);
        ghost var next := if wave.verdict.Continued? && |wave.prepared| > 0
          then Loop(f, RunRow(row, wave.events), budget - |wave.prepared|, w + 1) else [];
        LoopTurn(f, row, budget, w);
        Regroup(done, wave.events, next);
        Extend(t, done, wave.events);
        var count;
        verdict, count := RunTurn(maxParallel, budget, w, o, f);
        done, rest, left, started := done + wave.events, next, left - count, started + count;
        budget, w := budget - count, w + 1;
      }
    }

    /** `RunOneWave`, stated through the wave function of the loop. */
    method RunTurn(maxParallel: int, budget: int, w: nat, o: Oracle, ghost f: Waves)
      returns (verdict: Verdict, started: nat)
      requires Valid() && maxParallel >= 1 && budget >= 1 && Realizes(f, maxParallel, o)
      modifies this
      ensures Valid()
      ensures var wave := f(old(row), budget, w);
        && trace == old(trace) + wave.events && verdict == wave.verdict && started == |wave.prepared|
        && row == RunRow(old(row), wave.events)
        && (verdict.Continued? ==> started >= 1)
    {
      ghost var wave := RunWave(row, maxParallel, budget, w, o);
      RowAppends(origin, trace, wave.events);
      verdict, started := RunOneWave(maxParallel, budget, w, o);
    }

    /** `run_ready_steps`; `ok` is false when the call raises. */
    method RunReadySteps(maxParallel: int, maxSteps: int, o: Oracle) returns (ok: bool, started: nat)
      requires Valid()
      modifies this
      ensures Valid()
      ensures trace == old(trace) + RunProgram(old(row), maxParallel, maxSteps, o)
      ensures RunAllowed(old(row), maxParallel, maxSteps) ==> started == |Started(old(row), maxParallel, maxSteps, o)|
      ensures ok <==>
        && old(row).status.Active? && 1 <= maxParallel <= 32 && 1 <= maxSteps <= 1000
        && !Aborts.RaisesSomewhere(Aborts.TurnsOf(old(row), maxParallel, maxSteps, o), maxParallel, o)
      ensures PlanOk(old(row).nodes, |old(row).steps|) ==>
        if old(row).status.Active? && 1 <= maxParallel <= 32 && 1 <= maxSteps <= 1000
        then RunEnds.EndsAs(row, Started(old(row), maxParallel, maxSteps, o)) else row == old(row)
    {
      RowAppends(origin, trace, RunProgram(row, maxParallel, maxSteps, o));
      if PlanOk(row.nodes, |row.steps|) { RunEnds.RunVerdict(row, maxParallel, maxSteps, o); }
      if !RunAllowed(row, maxParallel, maxSteps) {
        assert trace == old(trace) + [];
        return false, 0;
      }
      var verdict;
      Aborts.RunRaisesIff(row, maxParallel, maxSteps, o);
      verdict, started := RunWaves(maxParallel, maxSteps, o, WavesOf(maxParallel, o));
      ok := !verdict.Aborted?;
    }

    /** Compensation of one step: attempt after attempt until one succeeds. An empty last error is
        taken for none, as the truth test on the error string takes it. */
    method CompensateStep(k: nat, r: Repair) returns (failed: bool)
      requires Valid()
      modifies this
      ensures Valid() && trace == old(trace) + RepairOne(k, r) && failed == RepairEnd(r).EndsFailed?
    {
      if r.Unresolvable? {
        Emit(Mark(k, StepStatus.CompensationFailed));
        return true;
      }
      var lastError, i := "", 1;
      ghost var goal := trace + RepairOne(k, r);
      while i <= r.maxAttempts
        invariant 1 <= i && Valid()
        invariant trace + CompensateFrom(k, i, r.maxAttempts, r.attempt, lastError) == goal
        invariant EndOf(i, r.maxAttempts, r.attempt, lastError) == RepairEnd(r)
      {
        AttemptRecorded(trace, k, i, r.maxAttempts, r.attempt, lastError);
        match r.attempt(i) {
          case Succeeded =>
            Emit(Compensate(k, true));
            Emit(Write(SetStep(k, StepStatus.Compensated, Some(i))));
            return false;
          case Raised(message) =>
            Emit(Compensate(k, false));
            lastError := message;
        }
        i := i + 1;
      }
      failed := lastError != "";
      Emit(if failed then Write(SetStep(k, StepStatus.CompensationFailed, Some(i - 1))) else Slip(k));
    }

    method CompensateListed(k: nat, r: Repair) returns (failed: bool)
      requires Valid()
      modifies this
      ensures Valid() && trace == old(trace) + RepairOne(k, r) && failed == Fails(r)
    {
      failed := CompensateStep(k, r);
      RepairEndMeaning(r);
    }

    /** The loop of `_rollback` over the listed steps. */
    method CompensateAll(ks: seq<nat>, o: Oracle) returns (failed: bool)
      requires Valid()
      modifies this
      ensures Valid() && trace == old(trace) + Repairs(ks, o) && failed == AnyFails(ks, o)
    {
      failed := false;
      ghost var t := trace;
      assert ks[..0] == [] && Repairs([], o) == [] && t + [] == t;
      for i := 0 to |ks|
        invariant Valid() && trace == t + Repairs(ks[..i], o)
        invariant failed == AnyFails(ks[..i], o)
      {
        var bad := CompensateListed(ks[i], o.repair(ks[i]));
        Extend(t, Repairs(ks[..i], o), RepairOne(ks[i], o.repair(ks[i])));
        RepairsSnoc(ks[..i], ks[i], o);
        AnyFailsSnoc(ks[..i], ks[i], o);
        assert ks[..i + 1] == ks[..i] + [ks[i]];
        failed := failed || bad;
      }
      assert ks[..|ks|] == ks;
    }

    /** Nodes take over the outcome of their step, in place. */
    static method Mirror(nodes0: seq<Node>, steps: seq<Step>) returns (nodes: seq<Node>)
      ensures nodes == MirrorNodes(nodes0, steps)
    {
      nodes := nodes0;
      for n := 0 to |nodes|
        invariant |nodes| == |nodes0|
        invariant forall m :: 0 <= m < |nodes| ==> nodes[m] == if m < n then Mirrored(nodes0[m], steps) else nodes0[m]
      {
        if nodes[n].stepNo.Some? && nodes[n].stepNo.value < |steps| {
          match steps[nodes[n].stepNo.value].status {
            case Compensated => nodes := nodes[n := nodes[n].(status := NodeStatus.Compensated)];
            case CompensationFailed => nodes := nodes[n := nodes[n].(status := NodeStatus.CompensationFailed)];
            case _ =>
          }
        }
      }
    }

    /** `_rollback` under a lease; `ok` is false when the saga is already terminal. */
    method Rollback(o: Oracle) returns (ok: bool)
      requires Valid()
      modifies this
      ensures Valid() && trace == old(trace) + RollbackProgram(old(row), o)
      ensures ok == !(old(row).status.Committed? || old(row).status.RolledBack?)
      ensures !ok ==> row == old(row)
      ensures ok && PlanOk(old(row).nodes, |old(row).steps|) ==> PassEnds(old(row), row, o)
    {
      RowAppends(origin, trace, RollbackProgram(row, o));
      if PlanOk(row.nodes, |row.steps|) && !Terminal(row.status) { PassVerdict(row, o); }
      if row.status.Committed? || row.status.RolledBack? {
        assert trace == old(trace) + [];
        return false;
      }
      ghost var row0, t := row, trace;
      var nodes := row.nodes;
      Emit(SetStatus(RollingBack));
      var ks := Listed(row.steps);
      ghost var undo := [SetStatus(RollingBack)] + Repairs(ks, o);
      RowAppends(origin, t, undo);
      var failed := CompensateAll(ks, o);
      Extend(t, [SetStatus(RollingBack)], Repairs(ks, o));
      assert row == RunRow(row0, undo);
      nodes := Mirror(nodes, row.steps);
      Emit(Write(SetSaga(Some(if failed then RollbackFailed else RolledBack), Some(nodes))));
      Extend(t, undo, [Write(SetSaga(Some(if failed then RollbackFailed else RolledBack), Some(nodes)))]);
      return true;
    }

    /** `resume_pending_rollbacks` on one saga it has claimed. */
    method Resume(o: Oracle)
      requires Valid()
      modifies this
      ensures Valid() && trace == old(trace) + RecoverProgram(old(row), o)
      ensures AwaitsRecovery(old(row)) && PlanOk(old(row).nodes, |old(row).steps|) ==>
        if SomeMustPause(old(row).nodes) then EscalatedWholesale(old(row), row, trace[|old(trace)|..])
        else PassEnds(old(row), row, o)
    {
      ghost var row0, t := row, trace;
      RowAppends(origin, trace, RecoverProgram(row, o));
      if AwaitsRecovery(row) && PlanOk(row.nodes, |row.steps|) {
        RecoveryCloses(row, o);
        PassVerdict(row, o);
      }
      ghost var nodes0 := row.nodes;
      var nodes, operator := row.nodes, false;
      for n := 0 to |nodes|
        invariant operator == exists m :: 0 <= m < n && InFlight(nodes[m]) && !RollsBack(nodes[m])
      {
        operator := operator || (InFlight(nodes[n]) && !RollsBack(nodes[n]));
      }
      assert operator == NeedsOperator(nodes);
      if operator {
        for n := 0 to |nodes|
          invariant |nodes| == |nodes0| && row == old(row) && trace == old(trace)
          invariant forall m :: 0 <= m < |nodes| ==> nodes[m] == if m < n then Escalated(nodes0)[m] else nodes0[m]
        {
          if InFlight(nodes[n]) {
            nodes := nodes[n := nodes[n].(status := NodeStatus.Failed, uncertain := true)];
          }
        }
        assert nodes == Escalated(nodes0);
        Emit(Write(SetSaga(Some(RecoveryRequired), Some(nodes))));
      } else {
        var ok := Rollback(o);
      }
    }

    /** Any operation: the worker does exactly what its program says, and wherever it is cut short the
        saga and its history keep the invariant every interleaving of workers relies on. */
    method Perform(op: Op, o: Oracle, p: RetryPolicy, unit: nat -> real)
      requires Valid()
      modifies this
      ensures Valid() && trace == old(trace) + Program(op, old(row), o)
      ensures (op.Recover? ==> !Terminal(old(row).status)) ==> GoodAtEveryCut(old(row), trace[|old(trace)|..])
    {
      ghost var row0, t := row, trace;
      var ok, started;
      match op {
        case Execute(contract) => ok := Execute(contract, o, p, unit);
        case Plan(request) => ok := PlanStep(request);
        case Approve(n, approved) => ok := ApproveStep(n, approved);
        case Retry(n, force) => ok := RetryStep(n, force);
        case RunReady(maxParallel, maxSteps) => ok, started := RunReadySteps(maxParallel, maxSteps, o);
        case Commit => ok := Commit();
        case RollBack => ok := Rollback(o);
        case Recover => Resume(o);
      }
      assert trace[|t|..] == Program(op, row0, o);
      if op.Recover? ==> !Terminal(row0.status) { ProgramGoodAtEveryCut(row0, op, o); }
    }
  }

  lemma LoopTurn(f: Waves, row: Row, budget: int, w: nat)
    requires budget > 0
    ensures var wave := f(row, budget, w);
      if wave.verdict.Continued? && |wave.prepared| > 0 then
        var after := RunRow(row, wave.events);
        && Loop(f, row, budget, w) == wave.events + Loop(f, after, budget - |wave.prepared|, w + 1)
        && |LoopStarted(f, row, budget, w)|
           == |wave.prepared| + |LoopStarted(f, after, budget - |wave.prepared|, w + 1)|
      else Loop(f, row, budget, w) == wave.events + [] && |LoopStarted(f, row, budget, w)| == |wave.prepared|
  {
    assert f(row, budget, w).events + [] == f(row, budget, w).events;
  }

  lemma Regroup(a: seq<Event>, c: seq<Event>, d: seq<Event>)
    ensures a + (c + d) == (a + c) + d
  {
  }

  ghost predicate Realizes(f: Waves, maxParallel: int, o: Oracle)
    requires maxParallel >= 1
  {
    forall row: Row, budget: int, w: nat {:trigger RunWave(row, maxParallel, budget, w, o)} ::
      budget >= 1 ==> f(row, budget, w) == RunWave(row, maxParallel, budget, w, o)
  }

  lemma {:induction false} SumSnoc(d: nat -> real, i: nat, k: nat)
    requires i <= k
    ensures Sum(d, i, k + 1) == Sum(d, i, k) + d(k)
    decreases k - i
  {
    if i < k { SumSnoc(d, i + 1, k); }
  }
}
