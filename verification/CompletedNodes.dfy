/** COMPLETED is earned: in every run a COMPLETED node was called under its own step, and its step is
    COMPLETED too unless a rollback took it back from under the node. */
module CompletedNodes {
  import opened Types
  import opened AbstractStore
  import opened Engine
  import opened Programs
  import opened Ledger
  import opened PlanSafety
  import opened RollbackSafety
  import opened WaveSafety
  import opened RunResults
  import opened Interleaving
  import opened Guarantees

  /** The marks a rollback leaves. */
  predicate Marked(status: StepStatus) { status.Compensated? || status.CompensationFailed? }

  ghost predicate Earned(node: Node, n: nat, steps: seq<Step>, log: seq<Event>) {
    node.status.Completed? ==>
      && node.stepNo.Some? && node.stepNo.value < |steps|
      && (steps[node.stepNo.value].status.Completed? || Marked(steps[node.stepNo.value].status))
      && Invoke(Some(n), node.stepNo.value) in log
  }

  ghost predicate Honest(b: Book) {
    forall n :: 0 <= n < |b.row.nodes| ==> Earned(b.row.nodes[n], n, b.row.steps, b.log)
  }

  /** No COMPLETED node runs under step `k`. */
  ghost predicate NoneDone(nodes: seq<Node>, k: nat) {
    forall n :: 0 <= n < |nodes| && nodes[n].status.Completed? ==> nodes[n].stepNo != Some(k)
  }

  predicate Gone(node: Node) { node.status.Compensated? || node.status.CompensationFailed? }

  /** A COMPLETED node stays COMPLETED under its step or is rolled back; a rolled-back one stays so. */
  ghost predicate KeepsDone(before: seq<Node>, after: seq<Node>) {
    |before| <= |after| &&
    forall n :: 0 <= n < |before| ==>
      && (Gone(before[n]) ==> Gone(after[n]))
      && (before[n].status.Completed? ==>
            Gone(after[n]) || (after[n].status.Completed? && after[n].stepNo == before[n].stepNo))
  }

  /** Whatever becomes COMPLETED has a COMPLETED step. */
  ghost predicate FreshlyDone(before: seq<Node>, after: seq<Node>, steps: seq<Step>) {
    forall n :: 0 <= n < |after| && after[n].status.Completed? && !(n < |before| && before[n].status.Completed?) ==>
      after[n].stepNo.Some? && after[n].stepNo.value < |steps| && steps[after[n].stepNo.value].status.Completed?
  }

  /** Rollback marks are made only while the saga is ROLLING_BACK, other marks only on steps no COMPLETED
      node runs under; steps start EXECUTING; nodes become COMPLETED after their steps, and only a rollback
      ends that. */
  ghost predicate Proper(row: Row, e: Event) {
    e.Write? ==>
      match e.change
      case NewStep(step) => step.status.Executing?
      case SetStep(k, status, _) => if Marked(status) then row.status.RollingBack? else NoneDone(row.nodes, k)
      case SetSaga(_, nodes) =>
        nodes.Some? ==> KeepsDone(row.nodes, nodes.value) && FreshlyDone(row.nodes, nodes.value, row.steps)
  }

  ghost predicate HonestAlong(b: Book, events: seq<Event>)
    decreases |events|
  {
    Honest(b) && (events != [] ==> Proper(b.row, events[0]) && HonestAlong(StepBook(b, events[0]), events[1..]))
  }

  lemma {:induction false} AlongAppend(b: Book, a: seq<Event>, c: seq<Event>)
    requires HonestAlong(b, a) && HonestAlong(RunBook(b, a), c)
    ensures HonestAlong(b, a + c)
    decreases |a|
  {
    if a == [] {
      assert a + c == c;
    } else {
      assert (a + c)[1..] == a[1..] + c;
      AlongAppend(StepBook(b, a[0]), a[1..], c);
    }
  }

  lemma {:induction false} AlongEnd(b: Book, events: seq<Event>)
    requires HonestAlong(b, events)
    ensures Honest(RunBook(b, events))
    decreases |events|
  {
    if events != [] { AlongEnd(StepBook(b, events[0]), events[1..]); }
  }

  lemma AlongOne(b: Book, e: Event)
    requires Honest(b) && Proper(b.row, e) && Honest(StepBook(b, e))
    ensures HonestAlong(b, [e]) && RunBook(b, [e]) == StepBook(b, e)
  {
    assert HonestAlong(StepBook(b, e), []) && RunBook(StepBook(b, e), []) == StepBook(b, e);
  }

  // ---- kinds of events ----

  /** A step is created, or marked EXECUTING, COMPLETED or FAILED while no COMPLETED node runs under it. */
  ghost predicate ForwardMark(nodes: seq<Node>, e: Event) {
    && e.Write? && !e.change.SetSaga?
    && (e.change.NewStep? ==> e.change.step.status.Executing?)
    && (e.change.SetStep? ==> !Marked(e.change.stepStatus) && NoneDone(nodes, e.change.k))
  }

  lemma {:induction false} MarksAlong(b: Book, events: seq<Event>)
    requires Honest(b) && forall i :: 0 <= i < |events| ==> ForwardMark(b.row.nodes, events[i])
    ensures HonestAlong(b, events)
    ensures RunBook(b, events).row.nodes == b.row.nodes && RunBook(b, events).log == b.log
    ensures RunBook(b, events).row.status == b.row.status
    decreases |events|
  {
    if events != [] {
      var c := StepBook(b, events[0]);
      assert ForwardMark(b.row.nodes, events[0]);
      forall n | 0 <= n < |c.row.nodes| ensures Earned(c.row.nodes[n], n, c.row.steps, c.log) {
        assert Earned(b.row.nodes[n], n, b.row.steps, b.log);
      }
      MarksAlong(c, events[1..]);
    }
  }

  predicate UndoEvent(e: Event) {
    !e.Write? || (e.change.SetStep? && Marked(e.change.stepStatus))
  }

  lemma {:induction false} UndosAlong(b: Book, events: seq<Event>)
    requires Honest(b) && b.row.status.RollingBack? && forall i :: 0 <= i < |events| ==> UndoEvent(events[i])
    ensures HonestAlong(b, events)
    ensures RunBook(b, events).row.nodes == b.row.nodes
    decreases |events|
  {
    if events != [] {
      var c := StepBook(b, events[0]);
      forall n | 0 <= n < |c.row.nodes| ensures Earned(c.row.nodes[n], n, c.row.steps, c.log) {
        assert Earned(b.row.nodes[n], n, b.row.steps, b.log);
      }
      UndosAlong(c, events[1..]);
    }
  }

  lemma {:induction false} CallsAlong(b: Book, events: seq<Event>)
    requires Honest(b) && forall i :: 0 <= i < |events| ==> events[i].Invoke?
    ensures HonestAlong(b, events)
    ensures RunBook(b, events) == b.(log := b.log + events)
    decreases |events|
  {
    if events != [] {
      var c := StepBook(b, events[0]);
      LogGrows(b, c.log);
      CallsAlong(c, events[1..]);
      assert b.log + [events[0]] + events[1..] == b.log + events;
    } else {
      assert b.log + events == b.log;
    }
  }

  lemma LogGrows(b: Book, log: seq<Event>)
    requires Honest(b) && forall e :: e in b.log ==> e in log
    ensures Honest(b.(log := log))
  {
    forall n | 0 <= n < |b.row.nodes| ensures Earned(b.row.nodes[n], n, b.row.steps, log) {
      assert Earned(b.row.nodes[n], n, b.row.steps, b.log);
    }
  }

  /** Every COMPLETED node was COMPLETED before, under the same step. */
  ghost predicate NothingNew(before: seq<Node>, after: seq<Node>) {
    forall n :: 0 <= n < |after| && after[n].status.Completed? ==>
      n < |before| && before[n].status.Completed? && before[n].stepNo == after[n].stepNo
  }

  /** Nothing becomes COMPLETED, and nothing that is stops being so except by rollback. */
  ghost predicate Steady(before: seq<Node>, after: seq<Node>) { NothingNew(before, after) && KeepsDone(before, after) }

  lemma SaveAlong(b: Book, status: Option<SagaStatus>, nodes: Option<seq<Node>>)
    requires Honest(b) && (nodes.Some? ==> Steady(b.row.nodes, nodes.value))
    ensures HonestAlong(b, [Write(SetSaga(status, nodes))])
  {
    var c := StepBook(b, Write(SetSaga(status, nodes)));
    forall n | 0 <= n < |c.row.nodes| ensures Earned(c.row.nodes[n], n, c.row.steps, c.log) {
      if c.row.nodes[n].status.Completed? { assert Earned(b.row.nodes[n], n, b.row.steps, b.log); }
    }
    AlongOne(b, Write(SetSaga(status, nodes)));
  }

  lemma RefreshIsSteady(nodes: seq<Node>)
    ensures Steady(nodes, Refresh(nodes))
  {
    RefreshPartial(nodes, nodes, Upto(|nodes|));
    forall n | 0 <= n < |nodes|
      ensures nodes[n].status.Completed? || Gone(nodes[n]) ==> Refresh(nodes)[n] == nodes[n]
      ensures Refresh(nodes)[n].status.Completed? ==> Refresh(nodes)[n] == nodes[n]
    {
      assert PartialAt(nodes, Refresh(nodes), n);
    }
  }

  lemma SteadyTrans(a: seq<Node>, b: seq<Node>, c: seq<Node>)
    requires Steady(a, b) && Steady(b, c)
    ensures Steady(a, c)
  {
  }

  // ---- plan, approve, retry, commit, execute ----

  lemma StatusThenNodesAlong(b: Book, status: SagaStatus, nodes: seq<Node>)
    requires Honest(b) && Steady(b.row.nodes, nodes)
    ensures HonestAlong(b, [SetStatus(status), SaveNodes(nodes)])
  {
    SaveAlong(b, Some(status), None);
    AlongEnd(b, [SetStatus(status)]);
    var c := RunBook(b, [SetStatus(status)]);
    assert c == StepBook(b, SetStatus(status)) by { assert RunBook(StepBook(b, SetStatus(status)), []) == c; }
    SaveAlong(c, None, Some(nodes));
    AlongAppend(b, [SetStatus(status)], [SaveNodes(nodes)]);
    assert [SetStatus(status)] + [SaveNodes(nodes)] == [SetStatus(status), SaveNodes(nodes)];
  }

  lemma PlanAlong(b: Book, q: PlanRequest)
    requires Honest(b)
    ensures HonestAlong(b, PlanProgram(b.row, q))
  {
    if PlanAllowed(b.row, q) {
      var nodes := b.row.nodes + [PlannedNode(q)];
      RefreshIsSteady(nodes);
      SteadyTrans(b.row.nodes, nodes, Refresh(nodes));
      SaveAlong(b, None, Some(Refresh(nodes)));
    }
  }

  lemma ApproveAlong(b: Book, n: nat, approved: bool)
    requires Honest(b)
    ensures HonestAlong(b, ApproveProgram(b.row, n, approved))
  {
    if ApprovalPending(b.row, n) {
      var nodes := b.row.nodes[n := ApprovedNode(b.row.nodes[n], approved, b.row.nodes)];
      SaveAlong(b, None, Some(nodes));
      StatusThenNodesAlong(b, RecoveryRequired, nodes);
      StatusThenNodesAlong(b, Active, nodes);
    }
  }

  lemma RetryAlong(b: Book, n: nat, force: bool)
    requires Honest(b)
    ensures HonestAlong(b, RetryProgram(b.row, n, force))
  {
    if RetryAllowed(b.row, n, force) {
      var nodes := b.row.nodes[n := RetriedNode(b.row.nodes[n], b.row.nodes)];
      RefreshIsSteady(nodes);
      SteadyTrans(b.row.nodes, nodes, Refresh(nodes));
      StatusThenNodesAlong(b, Active, Refresh(nodes));
    }
  }

  lemma CommitAlong(b: Book)
    requires Honest(b)
    ensures HonestAlong(b, CommitProgram(b.row))
  {
    SaveAlong(b, Some(Committed), None);
  }

  /** The step is journaled and called; nobody else runs under it. */
  lemma ExecuteCallsAlong(b: Book, contract: Contract, n: nat)
    requires Honest(b) && Journaled(b.row.nodes, |b.row.steps|)
    ensures var events := [Write(NewStep(FreshStep(contract)))] + Attempts(None, |b.row.steps|, n);
      HonestAlong(b, events) && Honest(RunBook(b, events)) && NoneDone(RunBook(b, events).row.nodes, |b.row.steps|)
  {
    var first, calls := [Write(NewStep(FreshStep(contract)))], Attempts(None, |b.row.steps|, n);
    MarksAlong(b, first);
    AlongEnd(b, first);
    CallsAlong(RunBook(b, first), calls);
    AlongAppend(b, first, calls);
    RunAppend(b, first, calls);
    AlongEnd(b, first + calls);
  }

  lemma FailureAlong(d: Book, k: nat, status: SagaStatus)
    requires Honest(d) && NoneDone(d.row.nodes, k)
    ensures HonestAlong(d, [Mark(k, StepStatus.Failed), SetStatus(status)])
  {
    MarksAlong(d, [Mark(k, StepStatus.Failed)]);
    AlongEnd(d, [Mark(k, StepStatus.Failed)]);
    SaveAlong(RunBook(d, [Mark(k, StepStatus.Failed)]), Some(status), None);
    AlongAppend(d, [Mark(k, StepStatus.Failed)], [SetStatus(status)]);
    assert [Mark(k, StepStatus.Failed)] + [SetStatus(status)] == [Mark(k, StepStatus.Failed), SetStatus(status)];
  }

  lemma ExecuteAlong(b: Book, contract: Option<Contract>, o: Oracle)
    requires Honest(b) && Journaled(b.row.nodes, |b.row.steps|)
    ensures HonestAlong(b, ExecuteProgram(b.row, contract, o))
  {
    if b.row.status.Active? && contract.Some? {
      var k, tries := |b.row.steps|, TriesFrom(1, o.forward);
      var begun := [Write(NewStep(FreshStep(contract.value)))] + Attempts(None, k, tries);
      var status := if contract.value.failureMode == Some(Pause) then RecoveryRequired else SagaStatus.Failed;
      ExecuteCallsAlong(b, contract.value, tries);
      MarksAlong(RunBook(b, begun), [Mark(k, StepStatus.Completed)]);
      FailureAlong(RunBook(b, begun), k, status);
      AlongAppend(b, begun, if Wins(o.forward) then [Mark(k, StepStatus.Completed)]
                            else [Mark(k, StepStatus.Failed), SetStatus(status)]);
    }
  }

  // ---- rollback and recovery ----

  lemma {:induction false} CompensateUndoes(k: nat, i: nat, maxAttempts: int, attempt: nat -> Outcome, last: string)
    requires i >= 1
    ensures forall j :: 0 <= j < |CompensateFrom(k, i, maxAttempts, attempt, last)| ==>
      UndoEvent(CompensateFrom(k, i, maxAttempts, attempt, last)[j])
    decreases maxAttempts - i + 1
  {
    if i <= maxAttempts && attempt(i).Raised? { CompensateUndoes(k, i + 1, maxAttempts, attempt, attempt(i).message); }
  }

  lemma {:induction false} RepairsUndo(ks: seq<nat>, o: Oracle)
    ensures forall j :: 0 <= j < |Repairs(ks, o)| ==> UndoEvent(Repairs(ks, o)[j])
  {
    if ks != [] {
      var r := o.repair(ks[0]);
      if r.Resolved? { CompensateUndoes(ks[0], 1, r.maxAttempts, r.attempt, ""); }
      RepairsUndo(ks[1..], o);
    }
  }

  lemma MirrorIsSteady(nodes: seq<Node>, steps: seq<Step>)
    ensures Steady(nodes, MirrorNodes(nodes, steps))
  {
  }

  lemma RollbackAlong(b: Book, o: Oracle)
    requires Honest(b)
    ensures HonestAlong(b, RollbackProgram(b.row, o))
  {
    if !Terminal(b.row.status) {
      var ks := Listed(b.row.steps);
      var first, undo := [SetStatus(RollingBack)], Repairs(ks, o);
      UndoAlong(b, undo, ks, o);
      var d := RunBook(b, first + undo);
      RowOfBook(b, first + undo);
      var status := if AnyFails(ks, o) then RollbackFailed else RolledBack;
      MirrorIsSteady(b.row.nodes, d.row.steps);
      SaveAlong(d, Some(status), Some(MirrorNodes(b.row.nodes, d.row.steps)));
      AlongAppend(b, first + undo, [Write(SetSaga(Some(status), Some(MirrorNodes(b.row.nodes, d.row.steps))))]);
    }
  }

  lemma UndoAlong(b: Book, undo: seq<Event>, ks: seq<nat>, o: Oracle)
    requires Honest(b) && undo == Repairs(ks, o)
    ensures var events := [SetStatus(RollingBack)] + undo;
      HonestAlong(b, events) && Honest(RunBook(b, events)) && RunBook(b, events).row.nodes == b.row.nodes
  {
    var first, c := [SetStatus(RollingBack)], StepBook(b, SetStatus(RollingBack));
    SaveAlong(b, Some(RollingBack), None);
    AlongOne(b, SetStatus(RollingBack));
    RepairsUndo(ks, o);
    UndosAlong(c, undo);
    AlongEnd(c, undo);
    AlongAppend(b, first, undo);
    RunAppend(b, first, undo);
  }

  lemma RecoverAlong(b: Book, o: Oracle)
    requires Honest(b)
    ensures HonestAlong(b, RecoverProgram(b.row, o))
  {
    if NeedsOperator(b.row.nodes) {
      SaveAlong(b, Some(RecoveryRequired), Some(Escalated(b.row.nodes)));
    } else {
      RollbackAlong(b, o);
    }
  }

  // ---- waves ----

  /** While a wave is prepared, COMPLETED nodes and their steps are left alone. */
  ghost predicate LeavesDone(b: Book, p: Prep) {
    && Steady(b.row.nodes, p.nodes) && NothingNew(p.nodes, b.row.nodes)
    && forall i :: 0 <= i < |p.events| ==> ForwardMark(b.row.nodes, p.events[i])
  }

  lemma StartLeavesDone(b: Book, p: Prep, n: nat, w: nat, o: Oracle)
    requires LeavesDone(b, p) && Journaled(p.nodes, |p.steps|) && n < |p.nodes| && p.nodes[n].status.Ready?
    ensures LeavesDone(b, PrepareOne(p, n, w, o))
  {
    var q := PrepareOne(p, n, w, o);
    if q.events != p.events && p.nodes[n].stepNo.Some? {
      forall m | 0 <= m < |b.row.nodes| && b.row.nodes[m].status.Completed?
        ensures b.row.nodes[m].stepNo != p.nodes[n].stepNo
      {
        assert p.nodes[m].status.Completed? && p.nodes[m].stepNo == b.row.nodes[m].stepNo;
        if m < n { assert p.nodes[m].stepNo != p.nodes[n].stepNo; }
        if n < m { assert p.nodes[n].stepNo != p.nodes[m].stepNo; }
      }
    }
  }

  lemma {:induction false} PrepareLeavesDone(b: Book, p: Prep, wave: seq<nat>, w: nat, o: Oracle)
    requires PlanSide(b, p) && LeavesDone(b, p) && Distinct(wave)
    requires forall i :: 0 <= i < |wave| ==> wave[i] < |p.nodes| && p.nodes[wave[i]].status.Ready?
    ensures LeavesDone(b, Prepare(p, wave, w, o))
    decreases |wave|
  {
    if wave != [] && !p.aborted {
      StartPlanSide(b, p, wave[0], w, o);
      StartLeavesDone(b, p, wave[0], w, o);
      PrepareLeavesDone(b, PrepareOne(p, wave[0], w, o), wave[1..], w, o);
    }
  }

  lemma RefreshKeepsDone(nodes: seq<Node>)
    ensures NothingNew(Refresh(nodes), nodes)
  {
    RefreshPartial(nodes, nodes, Upto(|nodes|));
    forall n | 0 <= n < |nodes| && nodes[n].status.Completed?
      ensures Refresh(nodes)[n].status.Completed? && nodes[n].stepNo == Refresh(nodes)[n].stepNo
    {
      assert PartialAt(nodes, Refresh(nodes), n);
    }
  }

  lemma PreparedLeavesDone(b: Book, maxParallel: int, budget: int, w: nat, o: Oracle)
    requires Good(b) && maxParallel >= 1 && budget >= 1
    ensures LeavesDone(b, Prepared(b.row, maxParallel, budget, w, o))
  {
    var nodes := Refresh(b.row.nodes);
    RefreshKeepsPlan(b.row.nodes, |b.row.steps|);
    RefreshIsSteady(b.row.nodes);
    RefreshKeepsDone(b.row.nodes);
    var p := Prep(nodes, b.row.steps, [], [], false);
    var ready := ReadyNodes(nodes);
    PrepareLeavesDone(b.(slipped := true), p, ready[..Min(Min(maxParallel, budget), |ready|)], w, o);
  }

  lemma SavePreparedAlong(b: Book, p: Prep)
    requires PrepOk(b, p) && Honest(b) && LeavesDone(b, p)
    ensures HonestAlong(b, p.events) && HonestAlong(b, p.events + [SaveNodes(p.nodes)])
    ensures Honest(b.(row := Row(Active, p.nodes, p.steps)))
  {
    MarksAlong(b, p.events);
    AlongEnd(b, p.events);
    SaveAlong(RunBook(b, p.events), None, Some(p.nodes));
    AlongAppend(b, p.events, [SaveNodes(p.nodes)]);
    AlongEnd(b, p.events + [SaveNodes(p.nodes)]);
    SavePrepared(b, p);
  }

  /** The step of a member of the wave, and nobody COMPLETED running under it. */
  lemma MemberStep(p: Prep, n: nat)
    requires PreparedSide(p) && Journaled(p.nodes, |p.steps|) && n in p.prepared
    ensures n < |p.nodes| && p.nodes[n].stepNo == Some(StepOf(p.nodes, n)) && StepOf(p.nodes, n) < |p.steps|
    ensures NoneDone(p.nodes, StepOf(p.nodes, n))
  {
    var i :| 0 <= i < |p.prepared| && p.prepared[i] == n;
    assert PreparedAt(p, p.prepared[i]);
    forall m | 0 <= m < |p.nodes| && p.nodes[m].status.Completed? ensures p.nodes[m].stepNo != p.nodes[n].stepNo {
      if m < n { assert p.nodes[m].stepNo != p.nodes[n].stepNo; }
      if n < m { assert p.nodes[n].stepNo != p.nodes[m].stepNo; }
    }
  }

  ghost predicate StepMark(e: Event) { e.Write? && e.change.SetStep? }

  lemma {:induction false} UnmarkedKept(row: Row, events: seq<Event>, k: nat)
    requires k < |row.steps| && forall i :: 0 <= i < |events| ==> StepMark(events[i]) && events[i].change.k != k
    ensures |RunRow(row, events).steps| == |row.steps| && RunRow(row, events).steps[k] == row.steps[k]
    decreases |events|
  {
    if events != [] {
      assert StepMark(events[0]);
      UnmarkedKept(After(row, events[0]), events[1..], k);
    }
  }

  /** Among marks of different steps, each one stands at the end. */
  lemma {:induction false} MarkStands(row: Row, events: seq<Event>, i: nat)
    requires forall j :: 0 <= j < |events| ==> StepMark(events[j])
    requires i < |events| && StepMark(events[i]) && events[i].change.k < |row.steps|
    requires forall j :: i < j < |events| ==> StepMark(events[j]) && events[j].change.k != events[i].change.k
    ensures events[i].change.k < |RunRow(row, events).steps|
    ensures RunRow(row, events).steps[events[i].change.k].status == events[i].change.stepStatus
    decreases |events|
  {
    assert StepMark(events[0]);
    if i == 0 {
      UnmarkedKept(After(row, events[0]), events[1..], events[0].change.k);
    } else {
      MarkStands(After(row, events[0]), events[1..], i - 1);
    }
  }

  /** A member has its step recorded COMPLETED or FAILED as it succeeded or not. */
  lemma ResultRecorded(p: Prep, w: nat, o: Oracle, n: nat)
    requires PreparedSide(p) && Journaled(p.nodes, |p.steps|) && n in p.prepared
    ensures var k := StepOf(p.nodes, n);
      && k < |DoneSteps(p, w, o)|
      && DoneSteps(p, w, o)[k].status == if o.Succeeds(w, n) then StepStatus.Completed else StepStatus.Failed
  {
    var marks := FinishEvents(p.nodes, p.prepared, w, o);
    var i :| 0 <= i < |p.prepared| && p.prepared[i] == n;
    MemberStep(p, n);
    forall j | i < j < |marks| ensures marks[j].change.k != marks[i].change.k {
      assert p.prepared[j] in p.prepared && p.prepared[i] != p.prepared[j];
      MemberStep(p, p.prepared[j]);
      StepsApart(p.nodes, |p.steps|, n, p.prepared[j]);
    }
    MarkStands(Row(Active, p.nodes, p.steps), marks, i);
  }

  lemma StepsApart(nodes: seq<Node>, steps: nat, m: nat, n: nat)
    requires Journaled(nodes, steps) && m < |nodes| && n < |nodes| && m != n && nodes[m].stepNo.Some? &&
             nodes[n].stepNo.Some?
    ensures nodes[m].stepNo != nodes[n].stepNo
  {
    if m < n { assert nodes[m].stepNo != nodes[n].stepNo; } else { assert nodes[n].stepNo != nodes[m].stepNo; }
  }

  /** A member that succeeded was called. */
  lemma SuccessWasCalled(p: Prep, w: nat, o: Oracle, n: nat)
    requires Distinct(p.prepared) && n in p.prepared && o.Succeeds(w, n)
    ensures Call(p.nodes, n) in Invocations(p.nodes, CallOrder(p.prepared, w, o))
  {
    var order := CallOrder(p.prepared, w, o);
    DueCount(p.prepared, w, o, n);
    TriesMeaning(1, o.member(w, n));
    InterleavedIsPermutation(Due(p.prepared, w, o), w, 0, o);
    assert n in multiset(order);
    var i :| 0 <= i < |order| && order[i] == n;
    assert Invocations(p.nodes, order)[i] == Call(p.nodes, n);
  }

  /** The book when the results of a wave are recorded on its steps but not yet on its nodes. */
  function Called(c: Book, p: Prep, w: nat, o: Oracle): Book {
    c.(row := Row(Active, p.nodes, DoneSteps(p, w, o)),
       log := c.log + Invocations(p.nodes, CallOrder(p.prepared, w, o)))
  }

  lemma CallsAndMarksAlong(c: Book, p: Prep, w: nat, o: Oracle)
    requires Honest(c) && c.row == Row(Active, p.nodes, p.steps) && PreparedSide(p) && Journaled(p.nodes, |p.steps|)
    ensures var events := Invocations(p.nodes, CallOrder(p.prepared, w, o)) + FinishEvents(p.nodes, p.prepared, w, o);
      && HonestAlong(c, events)
      && RunBook(c, events).row == Called(c, p, w, o).row && RunBook(c, events).log == Called(c, p, w, o).log
  {
    var calls, marks := Invocations(p.nodes, CallOrder(p.prepared, w, o)), FinishEvents(p.nodes, p.prepared, w, o);
    CallsAlong(c, calls);
    AlongEnd(c, calls);
    var d := c.(log := c.log + calls);
    forall i | 0 <= i < |marks| ensures ForwardMark(d.row.nodes, marks[i]) { MemberStep(p, p.prepared[i]); }
    MarksAlong(d, marks);
    AlongAppend(c, calls, marks);
    RunAppend(c, calls, marks);
    RowOfBook(d, marks);
  }

  lemma DoneIsEarned(c: Book, p: Prep, w: nat, o: Oracle)
    requires PreparedSide(p) && Journaled(p.nodes, |p.steps|) && Honest(Called(c, p, w, o))
    ensures Honest(Called(c, p, w, o).(row := Row(Active, DoneNodes(p.nodes, p.prepared, w, o), DoneSteps(p, w, o))))
  {
    var d := Called(c, p, w, o);
    var finished, done := FinishedNodes(p.nodes, p.prepared, w, o), DoneNodes(p.nodes, p.prepared, w, o);
    RefreshIsSteady(finished);
    forall n | 0 <= n < |done| ensures Earned(done[n], n, DoneSteps(p, w, o), d.log) {
      if done[n].status.Completed? {
        assert finished[n].status.Completed? && finished[n].stepNo == done[n].stepNo;
        if n in p.prepared {
          MemberStep(p, n);
          ResultRecorded(p, w, o, n);
          SuccessWasCalled(p, w, o, n);
        } else {
          assert Earned(p.nodes[n], n, d.row.steps, d.log);
        }
      }
    }
  }

  /** Nodes are saved COMPLETED after their steps were recorded so. */
  lemma DoneIsFresh(p: Prep, w: nat, o: Oracle)
    requires PreparedSide(p) && Journaled(p.nodes, |p.steps|)
    ensures var done := DoneNodes(p.nodes, p.prepared, w, o);
      KeepsDone(p.nodes, done) && FreshlyDone(p.nodes, done, DoneSteps(p, w, o))
  {
    var finished, done := FinishedNodes(p.nodes, p.prepared, w, o), DoneNodes(p.nodes, p.prepared, w, o);
    RefreshIsSteady(finished);
    forall n | 0 <= n < |done| && done[n].status.Completed? && !p.nodes[n].status.Completed?
      ensures done[n].stepNo.Some? && done[n].stepNo.value < |DoneSteps(p, w, o)|
      ensures DoneSteps(p, w, o)[done[n].stepNo.value].status.Completed?
    {
      assert finished[n].status.Completed? && finished[n].stepNo == done[n].stepNo;
      MemberStep(p, n);
      ResultRecorded(p, w, o, n);
    }
    forall n | 0 <= n < |done|
      ensures Gone(p.nodes[n]) ==> Gone(done[n])
      ensures p.nodes[n].status.Completed? ==>
        Gone(done[n]) || (done[n].status.Completed? && done[n].stepNo == p.nodes[n].stepNo)
    {
      if n in p.prepared { MemberIsExecuting(p, n); }
    }
  }

  lemma MemberIsExecuting(p: Prep, n: nat)
    requires PreparedSide(p) && n in p.prepared
    ensures n < |p.nodes| && p.nodes[n].status.Executing?
  {
    var i :| 0 <= i < |p.prepared| && p.prepared[i] == n;
    assert PreparedAt(p, p.prepared[i]);
  }

  lemma ExecutionAlong(c: Book, p: Prep, w: nat, o: Oracle)
    requires Honest(c) && c.row == Row(Active, p.nodes, p.steps) && PreparedSide(p) && Journaled(p.nodes, |p.steps|)
    requires p.prepared != []
    ensures HonestAlong(c, Execution(p.nodes, p.prepared, w, o))
  {
    var events := Invocations(p.nodes, CallOrder(p.prepared, w, o)) + FinishEvents(p.nodes, p.prepared, w, o);
    var save := SaveNodes(DoneNodes(p.nodes, p.prepared, w, o));
    CallsAndMarksAlong(c, p, w, o);
    AlongEnd(c, events);
    var d := RunBook(c, events);
    assert Honest(Called(c, p, w, o));
    DoneIsEarned(c, p, w, o);
    DoneIsFresh(p, w, o);
    AlongOne(d, save);
    AlongAppend(c, events, [save]);
  }

  lemma WaveAlong(b: Book, maxParallel: int, budget: int, w: nat, o: Oracle)
    requires Good(b) && Honest(b) && b.row.status.Active? && maxParallel >= 1 && budget >= 1
    ensures HonestAlong(b, RunWave(b.row, maxParallel, budget, w, o).events)
  {
    var wave, p := RunWave(b.row, maxParallel, budget, w, o), Prepared(b.row, maxParallel, budget, w, o);
    PreparedOk(b, maxParallel, budget, w, o);
    PreparedLeavesDone(b, maxParallel, budget, w, o);
    SavePreparedAlong(b, p);
    if wave.verdict.Idle? {
      RefreshIsSteady(b.row.nodes);
      SaveAlong(b, None, Some(Refresh(b.row.nodes)));
    } else if p.prepared != [] {
      RanAlong(b, p, w, o, FailureStatus(p.nodes, p.prepared, w, o));
    }
  }

  lemma RanAlong(b: Book, p: Prep, w: nat, o: Oracle, status: SagaStatus)
    requires PrepOk(b, p) && Honest(b) && LeavesDone(b, p) && p.prepared != []
    ensures var ran := p.events + [SaveNodes(p.nodes)] + Execution(p.nodes, p.prepared, w, o);
      HonestAlong(b, ran) && HonestAlong(b, ran + [SetStatus(status)])
  {
    var saved, run := p.events + [SaveNodes(p.nodes)], Execution(p.nodes, p.prepared, w, o);
    SavePreparedAlong(b, p);
    SavePrepared(b, p);
    ExecutionAlong(b.(row := Row(Active, p.nodes, p.steps)), p, w, o);
    AlongAppend(b, saved, run);
    AlongEnd(b, saved + run);
    SaveAlong(RunBook(b, saved + run), Some(status), None);
    AlongAppend(b, saved + run, [SetStatus(status)]);
  }

  ghost predicate HonestWaves(f: Waves) {
    forall b: Book, budget: int, w: nat {:trigger HonestWave(b, f(b.row, budget, w))} ::
      Good(b) && Honest(b) && b.row.status.Active? && budget >= 1 ==> HonestWave(b, f(b.row, budget, w))
  }

  ghost predicate HonestWave(b: Book, wave: Wave) { HonestAlong(b, wave.events) && SafeWave(b, wave) }

  lemma {:induction false} LoopAlong(f: Waves, b: Book, budget: int, w: nat)
    requires HonestWaves(f) && Good(b) && Honest(b) && b.row.status.Active?
    ensures HonestAlong(b, Loop(f, b.row, budget, w))
    decreases budget
  {
    if budget > 0 {
      var wave := f(b.row, budget, w);
      assert HonestWave(b, f(b.row, budget, w));
      if wave.verdict.Continued? && |wave.prepared| > 0 {
        AlongEnd(b, wave.events);
        LoopAlong(f, RunBook(b, wave.events), budget - |wave.prepared|, w + 1);
        AlongAppend(b, wave.events, Loop(f, RunRow(b.row, wave.events), budget - |wave.prepared|, w + 1));
      }
    }
  }

  lemma RunAlong(b: Book, maxParallel: int, maxSteps: int, o: Oracle)
    requires Good(b) && Honest(b)
    ensures HonestAlong(b, RunProgram(b.row, maxParallel, maxSteps, o))
  {
    if RunAllowed(b.row, maxParallel, maxSteps) {
      var f := WavesOf(maxParallel, o);
      forall c: Book, budget: int, w: nat | Good(c) && Honest(c) && c.row.status.Active? && budget >= 1
        ensures HonestWave(c, f(c.row, budget, w))
      {
        WaveAlong(c, maxParallel, budget, w, o);
        WaveSafe(c, maxParallel, budget, w, o);
      }
      LoopAlong(f, b, maxSteps, 0);
    }
  }

  lemma ProgramAlong(b: Book, op: Op, o: Oracle)
    requires Good(b) && Honest(b)
    ensures HonestAlong(b, Program(op, b.row, o))
  {
    match op
    case Execute(contract) => ExecuteAlong(b, contract, o);
    case Plan(request) => PlanAlong(b, request);
    case Approve(n, approved) => ApproveAlong(b, n, approved);
    case Retry(n, force) => RetryAlong(b, n, force);
    case RunReady(maxParallel, maxSteps) => RunAlong(b, maxParallel, maxSteps, o);
    case Commit => CommitAlong(b);
    case RollBack => RollbackAlong(b, o);
    case Recover => RecoverAlong(b, o);
  }

  // ---- every reachable world ----

  /** More history elsewhere does not disturb the newest session's program. */
  lemma {:induction false} LaterLogAlong(b: Book, log: seq<Event>, strays: set<nat>, rest: seq<Event>)
    requires HonestAlong(b, rest) && forall e :: e in b.log ==> e in log
    ensures HonestAlong(b.(log := log, strays := strays), rest)
    decreases |rest|
  {
    var s := b.(log := log, strays := strays);
    LogGrows(b, log);
    assert Honest(s) by {
      forall n | 0 <= n < |s.row.nodes| ensures Earned(s.row.nodes[n], n, s.row.steps, s.log) {
        assert Earned(s.row.nodes[n], n, s.row.steps, b.(log := log).log);
      }
    }
    if rest != [] {
      LaterLogAlong(StepBook(b, rest[0]), StepBook(s, rest[0]).log, strays, rest[1..]);
      assert StepBook(s, rest[0]) == StepBook(b, rest[0]).(log := StepBook(s, rest[0]).log, strays := strays);
    }
  }

  ghost predicate HonestWorld(w: World) {
    && Honest(w.book)
    && (w.lease.fence in w.sessions && w.sessions[w.lease.fence].Running? ==>
          HonestAlong(w.book, w.sessions[w.lease.fence].rest))
    && (w.lease.fence in w.listing ==> w.book.row.status.RollingBack?)
    && forall t :: t in w.sessions || t in w.listing ==> t <= w.lease.fence
  }

  /** A move either performs a proper event of the newest session, or leaves the row alone. */
  ghost predicate ProperMove(w: World, v: World) {
    v.book.row == w.book.row || exists e: Event :: Proper(w.book.row, e) && v.book.row == After(w.book.row, e)
  }

  lemma NewestAdvances(w: World)
    requires HonestWorld(w) && w.lease.fence in w.sessions && w.sessions[w.lease.fence].Running?
    requires w.sessions[w.lease.fence].rest != []
    ensures HonestWorld(Next(w, Advance(w.lease.fence))) && ProperMove(w, Next(w, Advance(w.lease.fence)))
  {
    var rest, v := w.sessions[w.lease.fence].rest, Next(w, Advance(w.lease.fence));
    assert v.book == StepBook(w.book, rest[0]);
    assert HonestAlong(v.book, rest[1..]);
    assert Proper(w.book.row, rest[0]) && v.book.row == After(w.book.row, rest[0]);
  }

  lemma StaleAdvances(w: World, token: nat)
    requires HonestWorld(w) && token in w.sessions && w.sessions[token].Running? && token != w.lease.fence
    requires w.sessions[token].rest != []
    ensures HonestWorld(Next(w, Advance(token))) && Next(w, Advance(token)).book.row == w.book.row
  {
    var e, v := w.sessions[token].rest[0], Next(w, Advance(token));
    if e.Invoke? || e.Compensate? {
      LogGrows(w.book, v.book.log);
      assert Honest(v.book) by {
        forall n | 0 <= n < |v.book.row.nodes| ensures Earned(v.book.row.nodes[n], n, v.book.row.steps, v.book.log) {
          assert Earned(v.book.row.nodes[n], n, v.book.row.steps, w.book.(log := v.book.log).log);
        }
      }
      if w.lease.fence in w.sessions && w.sessions[w.lease.fence].Running? {
        LaterLogAlong(w.book, v.book.log, v.book.strays, w.sessions[w.lease.fence].rest);
      }
    }
  }

  lemma ListStaysHonest(w: World, o: Oracle)
    requires HonestWorld(w) && w.book.row.status.RollingBack?
    ensures HonestAlong(w.book, RollbackTail(w.book.row, o))
  {
    RollbackAlong(w.book, o);
    assert StepBook(w.book, SetStatus(RollingBack)) == w.book && w.book.row.(status := RollingBack) == w.book.row;
    assert RollbackProgram(w.book.row, o)[0] == SetStatus(RollingBack);
  }

  lemma NextStaysHonest(w: World, m: Move)
    requires Inv(w) && HonestWorld(w)
    ensures HonestWorld(Next(w, m)) && ProperMove(w, Next(w, m))
  {
    if m.Read? && m.token in w.sessions && w.sessions[m.token].Waiting? {
      ProgramAlong(w.book, w.sessions[m.token].op, m.oracle);
    }
    if m.List? && m.token in w.listing && Working(w, m.token) && m.token == w.lease.fence {
      ListStaysHonest(w, m.oracle);
    }
    if m.Advance? && Working(w, m.token) {
      if m.token == w.lease.fence { NewestAdvances(w); } else { StaleAdvances(w, m.token); }
    }
  }

  lemma {:induction false} AlwaysHonest(now: real, moves: seq<Move>)
    ensures HonestWorld(Run(Begun(now), moves))
  {
    if moves != [] {
      AlwaysInv(now, moves[..|moves| - 1]);
      AlwaysHonest(now, moves[..|moves| - 1]);
      NextStaysHonest(Run(Begun(now), moves[..|moves| - 1]), moves[|moves| - 1]);
    }
  }

  /** In every run a COMPLETED node was called under its own step. */
  lemma CompletedWasCalled(now: real, moves: seq<Move>, n: nat)
    requires n < |Reached(now, moves).row.nodes| && Reached(now, moves).row.nodes[n].status.Completed?
    ensures var b := Reached(now, moves);
      b.row.nodes[n].stepNo.Some? && Invoke(Some(n), b.row.nodes[n].stepNo.value) in b.log
  {
    AlwaysHonest(now, moves);
    assert Earned(Reached(now, moves).row.nodes[n], n, Reached(now, moves).row.steps, Reached(now, moves).log);
  }

  // ---- steps taken back ----

  /** Node `n` is COMPLETED, but a rollback has marked its step. */
  ghost predicate TakenBack(row: Row, n: nat) {
    && n < |row.nodes| && row.nodes[n].status.Completed?
    && row.nodes[n].stepNo.Some? && row.nodes[n].stepNo.value < |row.steps|
    && Marked(row.steps[row.nodes[n].stepNo.value].status)
  }

  /** It never gets a COMPLETED step again. */
  ghost predicate Lost(row: Row, n: nat) { TakenBack(row, n) || (n < |row.nodes| && Gone(row.nodes[n])) }

  lemma TakenWhileRollingBack(w: World, v: World, n: nat)
    requires HonestWorld(w) && ProperMove(w, v) && TakenBack(v.book.row, n) && !TakenBack(w.book.row, n)
    ensures v.book.row.status.RollingBack?
  {
    if n < |w.book.row.nodes| { assert Earned(w.book.row.nodes[n], n, w.book.row.steps, w.book.log); }
  }

  lemma LostForGood(w: World, v: World, n: nat)
    requires ProperMove(w, v) && Lost(w.book.row, n)
    ensures Lost(v.book.row, n)
  {
  }

  /** After the first `i` moves a rollback is under way and has taken back the step of node `n`. */
  ghost predicate TakenBackBy(now: real, moves: seq<Move>, i: nat, n: nat)
    requires i <= |moves|
  {
    var row := Reached(now, moves[..i]).row; row.status.RollingBack? && TakenBack(row, n)
  }

  lemma {:induction false} TakenBackOnce(now: real, moves: seq<Move>, n: nat)
    requires TakenBack(Reached(now, moves).row, n)
    ensures exists i :: 0 <= i <= |moves| && TakenBackBy(now, moves, i, n)
  {
    if moves != [] {
      var init := moves[..|moves| - 1];
      AlwaysInv(now, init);
      AlwaysHonest(now, init);
      NextStaysHonest(Run(Begun(now), init), moves[|moves| - 1]);
      if TakenBack(Reached(now, init).row, n) {
        TakenBackOnce(now, init, n);
        var i :| 0 <= i <= |init| && TakenBackBy(now, init, i, n);
        assert init[..i] == moves[..i];
        assert TakenBackBy(now, moves, i, n);
      } else {
        TakenWhileRollingBack(Run(Begun(now), init), Run(Begun(now), moves), n);
        assert moves[..|moves|] == moves;
        assert TakenBackBy(now, moves, |moves|, n);
      }
    }
  }

  lemma {:induction false} LostSince(now: real, moves: seq<Move>, i: nat, n: nat)
    requires i <= |moves| && Lost(Reached(now, moves[..i]).row, n)
    ensures Lost(Reached(now, moves).row, n)
  {
    if i == |moves| {
      assert moves[..i] == moves;
    } else {
      var init := moves[..|moves| - 1];
      assert init[..i] == moves[..i];
      LostSince(now, init, i, n);
      AlwaysInv(now, init);
      AlwaysHonest(now, init);
      NextStaysHonest(Run(Begun(now), init), moves[|moves| - 1]);
      LostForGood(Run(Begun(now), init), Run(Begun(now), moves), n);
    }
  }

  /** In every run the step of a COMPLETED node is COMPLETED as well, unless and only unless some rollback
      on the way had already marked it while the node was COMPLETED. */
  lemma CompletedStepIff(now: real, moves: seq<Move>, n: nat)
    requires n < |Reached(now, moves).row.nodes| && Reached(now, moves).row.nodes[n].status.Completed?
    ensures var row := Reached(now, moves).row;
      && row.nodes[n].stepNo.Some? && row.nodes[n].stepNo.value < |row.steps|
      && (row.steps[row.nodes[n].stepNo.value].status.Completed? <==>
            !exists i :: 0 <= i <= |moves| && TakenBackBy(now, moves, i, n))
  {
    var b := Reached(now, moves);
    AlwaysHonest(now, moves);
    assert Earned(b.row.nodes[n], n, b.row.steps, b.log);
    if TakenBack(b.row, n) { TakenBackOnce(now, moves, n); }
    if i :| 0 <= i <= |moves| && TakenBackBy(now, moves, i, n) { LostSince(now, moves, i, n); }
  }

  /** In a COMMITTED saga the step of a node is not COMPLETED if and only if a rollback that did not
      finish had marked it while the node was COMPLETED. */
  lemma CommittedSteps(now: real, moves: seq<Move>, n: nat)
    requires Reached(now, moves).row.status.Committed? && n < |Reached(now, moves).row.nodes|
    ensures var row := Reached(now, moves).row;
      && row.nodes[n].status.Completed? && row.nodes[n].stepNo.Some? && row.nodes[n].stepNo.value < |row.steps|
      && (!row.steps[row.nodes[n].stepNo.value].status.Completed? <==>
            exists i :: 0 <= i <= |moves| && TakenBackBy(now, moves, i, n))
  {
    TerminalMeansDone(now, moves);
    assert Reached(now, moves).row.nodes[n] in Reached(now, moves).row.nodes;
    CompletedStepIff(now, moves, n);
  }

  /** A node under way outside rollback has COMPLETED dependencies; their steps are COMPLETED too, unless
      and only unless a rollback that did not finish had marked them. */
  lemma DependencySteps(now: real, moves: seq<Move>, n: nat, d: nat)
    requires AllSound(moves) && !Unwinding(Reached(now, moves).row.status)
    requires n < |Reached(now, moves).row.nodes| && UnderWay(Reached(now, moves).row.nodes[n])
    requires d in Reached(now, moves).row.nodes[n].deps
    ensures var row := Reached(now, moves).row;
      && d < |row.nodes| && row.nodes[d].status.Completed?
      && row.nodes[d].stepNo.Some? && row.nodes[d].stepNo.value < |row.steps|
      && (row.steps[row.nodes[d].stepNo.value].status.Completed? <==>
            !exists i :: 0 <= i <= |moves| && TakenBackBy(now, moves, i, d))
  {
    DependenciesHold(now, moves);
    CompletedStepIff(now, moves, d);
  }
}
