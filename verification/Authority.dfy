/** On whose word things change: over all runs, an uncertain outcome is cleared only by a forced retry that
    saw it, a decision is APPROVED only by an approval, and a node is what some request asked for. */
module Authority {
  import opened Types
  import opened AbstractStore
  import opened Engine
  import opened Programs
  import opened Ledger
  import opened PlanSafety
  import opened WaveSafety
  import opened RunResults
  import opened Interleaving
  import opened Guarantees
  import opened Decisions

  /** A node of uncertain outcome has failed or was rolled back. */
  ghost predicate UncertainStopped(nodes: seq<Node>) {
    forall n :: 0 <= n < |nodes| && nodes[n].uncertain ==>
      nodes[n].status.Failed? || nodes[n].status.Compensated? || nodes[n].status.CompensationFailed?
  }

  /** What operation `op`, having read the nodes `read`, may make of the nodes. */
  ghost predicate NodesLicensed(op: Op, read: seq<Node>, before: seq<Node>, after: seq<Node>) {
    && |before| <= |after| && UncertainStopped(after)
    && (forall n :: 0 <= n < |before| ==> NodeLicensed(op, read, before[n], after[n], n))
    && (forall n :: |before| <= n < |after| ==> NewNodeLicensed(op, read, after[n], n))
  }

  ghost predicate NewNodeLicensed(op: Op, read: seq<Node>, node: Node, n: nat) {
    op.Plan? && n == |read| && AsAsked(op.request, node)
  }

  ghost predicate NodeLicensed(op: Op, read: seq<Node>, before: Node, after: Node, n: nat) {
    && (before.uncertain && !after.uncertain ==> op == Retry(n, true) && n < |read| && read[n].uncertain)
    && (after.approval.Approved? && !before.approval.Approved? ==> op == Approve(n, true))
  }

  ghost predicate Licensed(op: Op, read: seq<Node>, row: Row, e: Event) {
    e.Write? && e.change.SetSaga? && e.change.nodes.Some? ==> NodesLicensed(op, read, row.nodes, e.change.nodes.value)
  }

  ghost predicate LicensedAlong(op: Op, read: seq<Node>, row: Row, events: seq<Event>)
    decreases |events|
  {
    && UncertainStopped(row.nodes)
    && (events != [] ==>
          Licensed(op, read, row, events[0]) && LicensedAlong(op, read, After(row, events[0]), events[1..]))
  }

  lemma {:induction false} LicensedAppend(op: Op, read: seq<Node>, row: Row, a: seq<Event>, c: seq<Event>)
    requires LicensedAlong(op, read, row, a) && LicensedAlong(op, read, RunRow(row, a), c)
    ensures LicensedAlong(op, read, row, a + c)
    decreases |a|
  {
    if a == [] {
      assert a + c == c;
    } else {
      assert (a + c)[1..] == a[1..] + c;
      LicensedAppend(op, read, After(row, a[0]), a[1..], c);
    }
  }

  /** Events that save no nodes need no licence. */
  lemma {:induction false} UnsavedLicensed(op: Op, read: seq<Node>, row: Row, events: seq<Event>)
    requires UncertainStopped(row.nodes) && forall i :: 0 <= i < |events| ==> !SavesNodes(events[i])
    ensures LicensedAlong(op, read, row, events) && RunRow(row, events).nodes == row.nodes
    decreases |events|
  {
    if events != [] { UnsavedLicensed(op, read, After(row, events[0]), events[1..]); }
  }

  predicate SavesNodes(e: Event) { e.Write? && e.change.SetSaga? && e.change.nodes.Some? }

  lemma SaveLicensed(op: Op, read: seq<Node>, row: Row, status: Option<SagaStatus>, nodes: seq<Node>)
    requires UncertainStopped(row.nodes) && NodesLicensed(op, read, row.nodes, nodes)
    ensures LicensedAlong(op, read, row, [Write(SetSaga(status, Some(nodes)))])
    ensures RunRow(row, [Write(SetSaga(status, Some(nodes)))]).nodes == nodes
  {
    var e := Write(SetSaga(status, Some(nodes)));
    assert LicensedAlong(op, read, After(row, e), []);
    assert RunRow(After(row, e), []) == After(row, e);
  }

  /** Nodes whose decisions stay and whose uncertainty is not cleared. */
  ghost predicate Calm(before: seq<Node>, after: seq<Node>) {
    && |before| == |after| && UncertainStopped(after)
    && forall n :: 0 <= n < |before| ==>
         after[n].approval == before[n].approval && (before[n].uncertain ==> after[n].uncertain)
  }

  lemma CalmLicensed(op: Op, read: seq<Node>, before: seq<Node>, after: seq<Node>)
    requires Calm(before, after)
    ensures NodesLicensed(op, read, before, after)
  {
  }

  lemma RefreshCalm(nodes: seq<Node>)
    requires UncertainStopped(nodes)
    ensures Calm(nodes, Refresh(nodes))
  {
    RefreshPartial(nodes, nodes, Upto(|nodes|));
    forall n | 0 <= n < |nodes|
      ensures Refresh(nodes)[n].approval == nodes[n].approval && Refresh(nodes)[n].uncertain == nodes[n].uncertain
      ensures nodes[n].uncertain ==> Refresh(nodes)[n] == nodes[n]
    {
      assert PartialAt(nodes, Refresh(nodes), n);
    }
  }

  // ---- plan, approve, retry ----

  lemma PlanLicensed(row: Row, q: PlanRequest)
    requires UncertainStopped(row.nodes) && PlanOk(row.nodes, |row.steps|)
    ensures LicensedAlong(Plan(q), row.nodes, row, PlanProgram(row, q))
  {
    if PlanAllowed(row, q) {
      var nodes := row.nodes + [PlannedNode(q)];
      RefreshCalm(nodes);
      NewNodeReadied(row.nodes, q);
      SaveLicensed(Plan(q), row.nodes, row, None, Refresh(nodes));
    }
  }

  lemma StatusThenSave(op: Op, read: seq<Node>, row: Row, status: SagaStatus, nodes: seq<Node>)
    requires UncertainStopped(row.nodes) && NodesLicensed(op, read, row.nodes, nodes)
    ensures LicensedAlong(op, read, row, [SetStatus(status)] + [SaveNodes(nodes)])
  {
    UnsavedLicensed(op, read, row, [SetStatus(status)]);
    SaveLicensed(op, read, RunRow(row, [SetStatus(status)]), None, nodes);
    LicensedAppend(op, read, row, [SetStatus(status)], [SaveNodes(nodes)]);
  }

  lemma ApproveLicensed(row: Row, op: Op, n: nat, approved: bool)
    requires UncertainStopped(row.nodes) && op == Approve(n, approved)
    ensures LicensedAlong(op, row.nodes, row, ApproveProgram(row, n, approved))
  {
    if ApprovalPending(row, n) {
      var nodes := row.nodes[n := ApprovedNode(row.nodes[n], approved, row.nodes)];
      assert NodesLicensed(op, row.nodes, row.nodes, nodes);
      StatusThenSave(op, row.nodes, row, RecoveryRequired, nodes);
      StatusThenSave(op, row.nodes, row, Active, nodes);
      SaveLicensed(op, row.nodes, row, None, nodes);
    }
  }

  lemma RetryLicensed(row: Row, op: Op, n: nat, force: bool)
    requires UncertainStopped(row.nodes) && op == Retry(n, force)
    ensures LicensedAlong(op, row.nodes, row, RetryProgram(row, n, force))
  {
    if RetryAllowed(row, n, force) {
      var nodes := row.nodes[n := RetriedNode(row.nodes[n], row.nodes)];
      RefreshCalm(nodes);
      assert NodesLicensed(op, row.nodes, row.nodes, Refresh(nodes));
      StatusThenSave(op, row.nodes, row, Active, Refresh(nodes));
      assert RetryProgram(row, n, force) == [SetStatus(Active)] + [SaveNodes(Refresh(nodes))];
    }
  }

  // ---- rollback, recovery ----

  lemma {:induction false} CompensateUnsaved(k: nat, i: nat, maxAttempts: int, attempt: nat -> Outcome, last: string)
    requires i >= 1
    ensures forall j :: 0 <= j < |CompensateFrom(k, i, maxAttempts, attempt, last)| ==>
      !SavesNodes(CompensateFrom(k, i, maxAttempts, attempt, last)[j])
    decreases maxAttempts - i + 1
  {
    if i <= maxAttempts && attempt(i).Raised? { CompensateUnsaved(k, i + 1, maxAttempts, attempt, attempt(i).message); }
  }

  lemma {:induction false} RepairsUnsaved(ks: seq<nat>, o: Oracle)
    ensures forall j :: 0 <= j < |Repairs(ks, o)| ==> !SavesNodes(Repairs(ks, o)[j])
  {
    if ks != [] {
      var r := o.repair(ks[0]);
      if r.Resolved? { CompensateUnsaved(ks[0], 1, r.maxAttempts, r.attempt, ""); }
      RepairsUnsaved(ks[1..], o);
    }
  }

  lemma MirrorCalm(nodes: seq<Node>, steps: seq<Step>)
    requires UncertainStopped(nodes)
    ensures Calm(nodes, MirrorNodes(nodes, steps))
  {
  }

  lemma RollbackLicensed(op: Op, read: seq<Node>, row: Row, o: Oracle)
    requires UncertainStopped(row.nodes)
    ensures LicensedAlong(op, read, row, RollbackProgram(row, o))
  {
    if !Terminal(row.status) {
      var ks := Listed(row.steps);
      var undo := [SetStatus(RollingBack)] + Repairs(ks, o);
      RepairsUnsaved(ks, o);
      UnsavedLicensed(op, read, row, undo);
      var steps := RunRow(row, undo).steps;
      MirrorCalm(row.nodes, steps);
      CalmLicensed(op, read, row.nodes, MirrorNodes(row.nodes, steps));
      var status := if AnyFails(ks, o) then RollbackFailed else RolledBack;
      SaveLicensed(op, read, RunRow(row, undo), Some(status), MirrorNodes(row.nodes, steps));
      LicensedAppend(op, read, row, undo, [Write(SetSaga(Some(status), Some(MirrorNodes(row.nodes, steps))))]);
    }
  }

  lemma TailLicensed(op: Op, read: seq<Node>, row: Row, o: Oracle, tail: seq<Event>)
    requires UncertainStopped(row.nodes) && row.status.RollingBack? && tail == RollbackTail(row, o)
    ensures LicensedAlong(op, read, row, tail)
  {
    RollbackLicensed(op, read, row, o);
    assert row.(status := RollingBack) == row && RollbackProgram(row, o)[0] == SetStatus(RollingBack);
    assert After(row, SetStatus(RollingBack)) == row;
  }

  lemma RecoverLicensed(op: Op, read: seq<Node>, row: Row, o: Oracle)
    requires UncertainStopped(row.nodes)
    ensures LicensedAlong(op, read, row, RecoverProgram(row, o))
  {
    if NeedsOperator(row.nodes) {
      assert Calm(row.nodes, Escalated(row.nodes));
      CalmLicensed(op, read, row.nodes, Escalated(row.nodes));
      SaveLicensed(op, read, row, Some(RecoveryRequired), Escalated(row.nodes));
    } else {
      RollbackLicensed(op, read, row, o);
    }
  }

  // ---- waves ----

  lemma {:induction false} PrepareCalm(nodes: seq<Node>, p: Prep, members: seq<nat>, w: nat, o: Oracle)
    requires Distinct(members) && Calm(nodes, p.nodes)
    requires forall i :: 0 <= i < |members| ==> members[i] < |p.nodes| && p.nodes[members[i]].status.Ready?
    requires forall i :: 0 <= i < |p.events| ==> !SavesNodes(p.events[i])
    ensures var q := Prepare(p, members, w, o);
      Calm(nodes, q.nodes) && forall i :: 0 <= i < |q.events| ==> !SavesNodes(q.events[i])
    decreases |members|
  {
    if members != [] && !p.aborted {
      var q := PrepareOne(p, members[0], w, o);
      assert !p.nodes[members[0]].uncertain;
      assert Calm(nodes, q.nodes);
      PrepareCalm(nodes, q, members[1..], w, o);
    }
  }

  lemma PreparedCalm(row: Row, maxParallel: int, budget: int, w: nat, o: Oracle)
    requires UncertainStopped(row.nodes) && maxParallel >= 1 && budget >= 1
    ensures var p := Prepared(row, maxParallel, budget, w, o);
      Calm(row.nodes, p.nodes) && forall i :: 0 <= i < |p.events| ==> !SavesNodes(p.events[i])
  {
    var nodes := Refresh(row.nodes);
    var ready := ReadyNodes(nodes);
    RefreshCalm(row.nodes);
    PrepareCalm(row.nodes, Prep(nodes, row.steps, [], [], false),
                ready[..Min(Min(maxParallel, budget), |ready|)], w, o);
  }

  lemma DoneCalm(p: Prep, w: nat, o: Oracle)
    requires UncertainStopped(p.nodes) && PreparedSide(p)
    ensures Calm(p.nodes, DoneNodes(p.nodes, p.prepared, w, o))
  {
    var finished := FinishedNodes(p.nodes, p.prepared, w, o);
    forall n | 0 <= n < |p.nodes| && n in p.prepared ensures !p.nodes[n].uncertain {
      var i :| 0 <= i < |p.prepared| && p.prepared[i] == n;
      assert PreparedAt(p, p.prepared[i]);
    }
    RefreshCalm(finished);
  }

  lemma ExecutionLicensed(op: Op, read: seq<Node>, row: Row, p: Prep, w: nat, o: Oracle)
    requires row.nodes == p.nodes && UncertainStopped(p.nodes) && PreparedSide(p) && p.prepared != []
    ensures LicensedAlong(op, read, row, Execution(p.nodes, p.prepared, w, o))
  {
    var before := Invocations(p.nodes, CallOrder(p.prepared, w, o)) + FinishEvents(p.nodes, p.prepared, w, o);
    var done := DoneNodes(p.nodes, p.prepared, w, o);
    UnsavedLicensed(op, read, row, before);
    DoneCalm(p, w, o);
    CalmLicensed(op, read, p.nodes, done);
    SaveLicensed(op, read, RunRow(row, before), None, done);
    LicensedAppend(op, read, row, before, [SaveNodes(done)]);
  }

  lemma RanLicensed(op: Op, read: seq<Node>, row: Row, p: Prep, w: nat, o: Oracle, status: SagaStatus)
    requires UncertainStopped(row.nodes) && Calm(row.nodes, p.nodes) && PreparedSide(p)
    requires forall i :: 0 <= i < |p.events| ==> !SavesNodes(p.events[i])
    ensures LicensedAlong(op, read, row, p.events) && LicensedAlong(op, read, row, p.events + [SaveNodes(p.nodes)])
    ensures p.prepared != [] ==>
      var ran := p.events + [SaveNodes(p.nodes)] + Execution(p.nodes, p.prepared, w, o);
      LicensedAlong(op, read, row, ran) && LicensedAlong(op, read, row, ran + [SetStatus(status)])
  {
    var saved := p.events + [SaveNodes(p.nodes)];
    UnsavedLicensed(op, read, row, p.events);
    CalmLicensed(op, read, row.nodes, p.nodes);
    SaveLicensed(op, read, RunRow(row, p.events), None, p.nodes);
    LicensedAppend(op, read, row, p.events, [SaveNodes(p.nodes)]);
    if p.prepared != [] {
      var run := Execution(p.nodes, p.prepared, w, o);
      RowAppends(row, p.events, [SaveNodes(p.nodes)]);
      ExecutionLicensed(op, read, RunRow(row, saved), p, w, o);
      LicensedAppend(op, read, row, saved, run);
      LicensedEnd(op, read, row, saved + run);
      UnsavedLicensed(op, read, RunRow(row, saved + run), [SetStatus(status)]);
      LicensedAppend(op, read, row, saved + run, [SetStatus(status)]);
    }
  }

  lemma {:induction false} LicensedEnd(op: Op, read: seq<Node>, row: Row, events: seq<Event>)
    requires LicensedAlong(op, read, row, events)
    ensures UncertainStopped(RunRow(row, events).nodes)
    decreases |events|
  {
    if events != [] { LicensedEnd(op, read, After(row, events[0]), events[1..]); }
  }

  ghost predicate LicensedWave(op: Op, read: seq<Node>, row: Row, wave: Wave) {
    && LicensedAlong(op, read, row, wave.events)
    && (wave.verdict.Continued? ==> Runs(RunRow(row, wave.events)))
  }

  lemma WaveLicensed(op: Op, read: seq<Node>, row: Row, maxParallel: int, budget: int, w: nat, o: Oracle)
    requires Runs(row) && UncertainStopped(row.nodes) && maxParallel >= 1 && budget >= 1
    ensures LicensedWave(op, read, row, RunWave(row, maxParallel, budget, w, o))
  {
    var wave, p := RunWave(row, maxParallel, budget, w, o), Prepared(row, maxParallel, budget, w, o);
    if wave.verdict.Continued? { ContinuedPlan(row, maxParallel, budget, w, o); }
    if wave.verdict.Idle? {
      IdleLicensed(op, read, row);
    } else {
      assert Calm(row.nodes, p.nodes) && (forall i :: 0 <= i < |p.events| ==> !SavesNodes(p.events[i])) by {
        PreparedCalm(row, maxParallel, budget, w, o);
      }
      assert PreparedSide(p) by { PreparationHolds(row, maxParallel, budget, w, o); }
      RanLicensed(op, read, row, p, w, o, FailureStatus(p.nodes, p.prepared, w, o));
    }
  }

  lemma IdleLicensed(op: Op, read: seq<Node>, row: Row)
    requires UncertainStopped(row.nodes)
    ensures LicensedAlong(op, read, row, [SaveNodes(Refresh(row.nodes))])
  {
    RefreshCalm(row.nodes);
    CalmLicensed(op, read, row.nodes, Refresh(row.nodes));
    SaveLicensed(op, read, row, None, Refresh(row.nodes));
  }

  ghost predicate LicensedWaves(op: Op, read: seq<Node>, f: Waves) {
    forall row: Row, budget: int, w: nat {:trigger LicensedWave(op, read, row, f(row, budget, w))} ::
      Runs(row) && UncertainStopped(row.nodes) && budget >= 1 ==> LicensedWave(op, read, row, f(row, budget, w))
  }

  lemma {:induction false} LoopLicensed(op: Op, read: seq<Node>, f: Waves, row: Row, budget: int, w: nat)
    requires LicensedWaves(op, read, f) && Runs(row) && UncertainStopped(row.nodes)
    ensures LicensedAlong(op, read, row, Loop(f, row, budget, w))
    decreases budget
  {
    if budget > 0 {
      var wave := f(row, budget, w);
      assert LicensedWave(op, read, row, f(row, budget, w));
      if wave.verdict.Continued? && |wave.prepared| > 0 {
        var mid, left := RunRow(row, wave.events), budget - |wave.prepared|;
        LicensedEnd(op, read, row, wave.events);
        LoopLicensed(op, read, f, mid, left, w + 1);
        LicensedAppend(op, read, row, wave.events, Loop(f, mid, left, w + 1));
      }
    }
  }

  lemma RunLicensed(op: Op, read: seq<Node>, row: Row, maxParallel: int, maxSteps: int, o: Oracle)
    requires UncertainStopped(row.nodes) && PlanOk(row.nodes, |row.steps|)
    ensures LicensedAlong(op, read, row, RunProgram(row, maxParallel, maxSteps, o))
  {
    if RunAllowed(row, maxParallel, maxSteps) {
      var f := WavesOf(maxParallel, o);
      forall r: Row, budget: int, w: nat | Runs(r) && UncertainStopped(r.nodes) && budget >= 1
        ensures LicensedWave(op, read, r, f(r, budget, w))
      {
        WaveLicensed(op, read, r, maxParallel, budget, w, o);
      }
      LoopLicensed(op, read, f, row, maxSteps, 0);
    }
  }

  lemma ProgramLicensed(op: Op, row: Row, o: Oracle)
    requires UncertainStopped(row.nodes) && PlanOk(row.nodes, |row.steps|)
    ensures LicensedAlong(op, row.nodes, row, Program(op, row, o))
  {
    match op
    case Execute(contract) => UnsavedLicensed(op, row.nodes, row, ExecuteProgram(row, contract, o));
    case Plan(request) => PlanLicensed(row, request);
    case Approve(n, approved) => ApproveLicensed(row, op, n, approved);
    case Retry(n, force) => RetryLicensed(row, op, n, force);
    case RunReady(maxParallel, maxSteps) => RunLicensed(op, row.nodes, row, maxParallel, maxSteps, o);
    case Commit => UnsavedLicensed(op, row.nodes, row, CommitProgram(row));
    case RollBack => RollbackLicensed(op, row.nodes, row, o);
    case Recover => RecoverLicensed(op, row.nodes, row, o);
  }

  // ---- over runs ----

  /** The `i`-th move is a session reading the row for `op`. */
  ghost predicate ReadsFor(now: real, moves: seq<Move>, i: nat, op: Op) {
    && i < |moves| && moves[i].Read?
    && var w := Run(Begun(now), moves[..i]);
       moves[i].token in w.sessions && w.sessions[moves[i].token] == Waiting(op)
  }

  lemma ReadsForLater(now: real, a: seq<Move>, b: seq<Move>, i: nat, op: Op)
    requires ReadsFor(now, a, i, op)
    ensures ReadsFor(now, a + b, i, op) && (a + b)[..i] == a[..i]
  {
    assert (a + b)[..i] == a[..i];
  }

  /** What the newest session has left is licensed by an operation that read the row at move `i`. */
  ghost predicate LicensedBy(now: real, moves: seq<Move>, row: Row, rest: seq<Event>, i: nat, op: Op) {
    && ReadsFor(now, moves, i, op) && LicensedAlong(op, Reached(now, moves[..i]).row.nodes, row, rest)
  }

  ghost predicate NewestLicensed(now: real, moves: seq<Move>, row: Row, rest: seq<Event>) {
    exists i: nat, op :: LicensedBy(now, moves, row, rest, i, op)
  }

  ghost predicate LicensedWorld(now: real, moves: seq<Move>) {
    var w := Run(Begun(now), moves);
    && UncertainStopped(w.book.row.nodes)
    && (w.lease.fence in w.sessions && w.sessions[w.lease.fence].Running? ==>
          NewestLicensed(now, moves, w.book.row, w.sessions[w.lease.fence].rest))
  }

  /** The last move leaves the nodes alone or was licensed by an operation that read the row before. */
  ghost predicate NodesMove(now: real, moves: seq<Move>, before: seq<Node>, after: seq<Node>) {
    after == before ||
    exists i: nat, op :: ReadsFor(now, moves, i, op) &&
                         NodesLicensed(op, Reached(now, moves[..i]).row.nodes, before, after)
  }

  lemma NewestLater(now: real, moves: seq<Move>, m: Move, row: Row, rest: seq<Event>)
    requires NewestLicensed(now, moves, row, rest)
    ensures NewestLicensed(now, moves + [m], row, rest)
  {
    var i: nat, op :| LicensedBy(now, moves, row, rest, i, op);
    ReadsForLater(now, moves, [m], i, op);
    assert LicensedBy(now, moves + [m], row, rest, i, op);
  }

  lemma AdvanceLicensed(now: real, moves: seq<Move>, w: World, v: World, m: Move)
    requires w == Run(Begun(now), moves) && LicensedWorld(now, moves) && m == Advance(w.lease.fence) && v == Next(w, m)
    requires Working(w, w.lease.fence)
    ensures UncertainStopped(v.book.row.nodes) && NodesMove(now, moves, w.book.row.nodes, v.book.row.nodes)
    ensures v.lease.fence in v.sessions && v.sessions[v.lease.fence].Running? ==>
      NewestLicensed(now, moves, v.book.row, v.sessions[v.lease.fence].rest)
  {
    var rest := w.sessions[w.lease.fence].rest;
    var i: nat, op :| LicensedBy(now, moves, w.book.row, rest, i, op);
    assert v.book.row == After(w.book.row, rest[0]);
    assert Licensed(op, Reached(now, moves[..i]).row.nodes, w.book.row, rest[0]);
    assert LicensedBy(now, moves, v.book.row, rest[1..], i, op);
  }

  lemma ListLicensed(now: real, moves: seq<Move>, w: World, o: Oracle, tail: seq<Event>)
    requires w == Run(Begun(now), moves) && LicensedWorld(now, moves) && Inv(w)
    requires w.lease.fence in w.listing && Working(w, w.lease.fence) && tail == RollbackTail(w.book.row, o)
    ensures NewestLicensed(now, moves, w.book.row, tail)
  {
    var i: nat, op :| LicensedBy(now, moves, w.book.row, w.sessions[w.lease.fence].rest, i, op);
    TailLicensed(op, Reached(now, moves[..i]).row.nodes, w.book.row, o, tail);
    assert LicensedBy(now, moves, w.book.row, tail, i, op);
  }

  lemma ReadLicensed(now: real, moves: seq<Move>, w: World, m: Move)
    requires w == Run(Begun(now), moves) && LicensedWorld(now, moves) && Inv(w)
    requires m.Read? && m.token in w.sessions && w.sessions[m.token].Waiting?
    ensures NewestLicensed(now, moves + [m], w.book.row, Program(w.sessions[m.token].op, w.book.row, m.oracle))
  {
    var op := w.sessions[m.token].op;
    ProgramLicensed(op, w.book.row, m.oracle);
    assert (moves + [m])[..|moves|] == moves;
    assert LicensedBy(now, moves + [m], w.book.row, Program(op, w.book.row, m.oracle), |moves|, op);
  }

  /** Only the newest session can change the row, and only its own moves change what it has left. */
  lemma RestOfNewest(w: World, m: Move)
    requires Inv(w) && !(m == Advance(w.lease.fence) && Working(w, w.lease.fence))
    ensures var v, fence := Next(w, m), w.lease.fence;
      && v.book.row == w.book.row
      && (v.lease.fence in v.sessions && v.sessions[v.lease.fence].Running? ==>
            && v.lease.fence == fence && fence in w.sessions
            && (|| v.sessions[fence] == w.sessions[fence]
                || (m.Read? && m.token == fence && w.sessions[fence].Waiting?
                    && v.sessions[fence] == Running(Program(w.sessions[fence].op, w.book.row, m.oracle)))
                || (m.List? && m.token == fence && fence in w.listing && Working(w, fence)
                    && v.sessions[fence] == Running(RollbackTail(w.book.row, m.oracle)))))
  {
  }

  lemma OtherMoveLicensed(now: real, moves: seq<Move>, m: Move, w: World, v: World)
    requires w == Run(Begun(now), moves) && v == Next(w, m) && LicensedWorld(now, moves) && Inv(w)
    requires !(m == Advance(w.lease.fence) && Working(w, w.lease.fence))
    ensures v.book.row == w.book.row
    ensures v.lease.fence in v.sessions && v.sessions[v.lease.fence].Running? ==>
      NewestLicensed(now, moves + [m], v.book.row, v.sessions[v.lease.fence].rest)
  {
    var fence := w.lease.fence;
    RestOfNewest(w, m);
    if v.lease.fence in v.sessions && v.sessions[v.lease.fence].Running? {
      if v.sessions[fence] == w.sessions[fence] {
        NewestLater(now, moves, m, w.book.row, w.sessions[fence].rest);
      } else if m.Read? {
        ReadLicensed(now, moves, w, m);
      } else {
        var tail := RollbackTail(w.book.row, m.oracle);
        ListLicensed(now, moves, w, m.oracle, tail);
        NewestLater(now, moves, m, w.book.row, tail);
      }
    }
  }

  lemma MoveLicensed(now: real, moves: seq<Move>, m: Move)
    requires LicensedWorld(now, moves) && Inv(Run(Begun(now), moves))
    ensures LicensedWorld(now, moves + [m])
    ensures NodesMove(now, moves, Reached(now, moves).row.nodes, Reached(now, moves + [m]).row.nodes)
  {
    var w := Run(Begun(now), moves);
    var v := Next(w, m);
    assert (moves + [m])[..|moves|] == moves;
    assert v == Run(Begun(now), moves + [m]);
    var fence := w.lease.fence;
    if m == Advance(fence) && Working(w, fence) {
      AdvanceLicensed(now, moves, w, v, m);
      assert v.lease.fence == fence;
      if fence in v.sessions && v.sessions[fence].Running? {
        NewestLater(now, moves, m, v.book.row, v.sessions[fence].rest);
      }
    } else {
      OtherMoveLicensed(now, moves, m, w, v);
    }
  }

  lemma {:induction false} AlwaysLicensed(now: real, moves: seq<Move>)
    ensures LicensedWorld(now, moves)
  {
    if moves != [] {
      var init := moves[..|moves| - 1];
      AlwaysLicensed(now, init);
      AlwaysInv(now, init);
      MoveLicensed(now, init, moves[|moves| - 1]);
      assert init + [moves[|moves| - 1]] == moves;
    }
  }

  lemma LastMove(now: real, moves: seq<Move>, m: Move)
    ensures NodesMove(now, moves, Reached(now, moves).row.nodes, Reached(now, moves + [m]).row.nodes)
    ensures NodesEvolve(Reached(now, moves).row.nodes, Reached(now, moves + [m]).row.nodes)
  {
    AlwaysLicensed(now, moves);
    AlwaysInv(now, moves);
    MoveLicensed(now, moves, m);
    PlansStayWellFormed(now, moves, [m]);
  }

  // ---- what follows ----

  /** Some session read the row for `op`. */
  ghost predicate WasAsked(now: real, moves: seq<Move>, op: Op) { exists i: nat :: ReadsFor(now, moves, i, op) }

  /** A session read the row for a forced retry of node `n` while its outcome was uncertain. */
  ghost predicate ForcedKnowingly(now: real, moves: seq<Move>, i: nat, n: nat) {
    && ReadsFor(now, moves, i, Retry(n, true))
    && n < |Reached(now, moves[..i]).row.nodes| && Reached(now, moves[..i]).row.nodes[n].uncertain
  }

  /** An uncertain outcome is cleared only by a forced retry that saw it. */
  lemma {:induction false} UncertaintyNeedsForce(now: real, a: seq<Move>, b: seq<Move>, n: nat)
    requires n < |Reached(now, a).row.nodes| && Reached(now, a).row.nodes[n].uncertain
    requires n < |Reached(now, a + b).row.nodes| && !Reached(now, a + b).row.nodes[n].uncertain
    ensures exists i: nat :: ForcedKnowingly(now, a + b, i, n)
  {
    assert b == [] ==> a + b == a;
    if b != [] {
      var init, m := b[..|b| - 1], b[|b| - 1];
      assert a + b == (a + init) + [m];
      LastMove(now, a + init, m);
      PlansStayWellFormed(now, a, init);
      var before, after := Reached(now, a + init).row.nodes, Reached(now, a + b).row.nodes;
      if before[n].uncertain {
        var i: nat, op :| ReadsFor(now, a + init, i, op) &&
                          NodesLicensed(op, Reached(now, (a + init)[..i]).row.nodes, before, after);
        assert NodeLicensed(op, Reached(now, (a + init)[..i]).row.nodes, before[n], after[n], n);
        ReadsForLater(now, a + init, [m], i, op);
        assert ForcedKnowingly(now, a + b, i, n);
      } else {
        UncertaintyNeedsForce(now, a, init, n);
        var i: nat :| ForcedKnowingly(now, a + init, i, n);
        ReadsForLater(now, a + init, [m], i, Retry(n, true));
        assert ForcedKnowingly(now, a + b, i, n);
      }
    }
  }

  /** A decision is APPROVED only by an approval of that node. */
  lemma {:induction false} ApprovedByDecision(now: real, moves: seq<Move>, n: nat)
    requires n < |Reached(now, moves).row.nodes| && Reached(now, moves).row.nodes[n].approval.Approved?
    ensures WasAsked(now, moves, Approve(n, true))
  {
    var init, m := moves[..|moves| - 1], moves[|moves| - 1];
    assert moves == init + [m];
    LastMove(now, init, m);
    var before, after := Reached(now, init).row.nodes, Reached(now, moves).row.nodes;
    if n < |before| && before[n].approval.Approved? {
      ApprovedByDecision(now, init, n);
      var i: nat :| ReadsFor(now, init, i, Approve(n, true));
      ReadsForLater(now, init, [m], i, Approve(n, true));
    } else {
      var i: nat, op :| ReadsFor(now, init, i, op) &&
                        NodesLicensed(op, Reached(now, init[..i]).row.nodes, before, after);
      if n < |before| { assert NodeLicensed(op, Reached(now, init[..i]).row.nodes, before[n], after[n], n); }
      ReadsForLater(now, init, [m], i, op);
    }
  }

  /** The planned fields of a node are those the request asks for. */
  ghost predicate KeepsToRequest(q: PlanRequest, node: Node) {
    && q.contract == Some(node.contract) && node.key == q.key && FirstOccurrences(q.deps, node.deps)
    && node.approvalRequired == (if q.approval.Some? then q.approval.value else q.policyApproval)
  }

  ghost predicate PlannedAt(now: real, moves: seq<Move>, i: nat, q: PlanRequest, n: nat) {
    ReadsFor(now, moves, i, Plan(q)) && |Reached(now, moves[..i]).row.nodes| == n
  }

  lemma PlannedByRequest(op: Op, read: seq<Node>, before: seq<Node>, after: seq<Node>, n: nat)
    requires NodesLicensed(op, read, before, after) && |before| <= n < |after|
    ensures op.Plan? && |read| == n && KeepsToRequest(op.request, after[n])
  {
    assert NewNodeLicensed(op, read, after[n], n);
  }

  /** Every node was planned by a request, at its place, and keeps to it. */
  lemma {:induction false} NodesWerePlanned(now: real, moves: seq<Move>, n: nat)
    requires n < |Reached(now, moves).row.nodes|
    ensures exists i: nat, q :: PlannedAt(now, moves, i, q, n) && KeepsToRequest(q, Reached(now, moves).row.nodes[n])
  {
    var init, m := moves[..|moves| - 1], moves[|moves| - 1];
    assert moves == init + [m];
    LastMove(now, init, m);
    var before, after := Reached(now, init).row.nodes, Reached(now, moves).row.nodes;
    if n < |before| {
      NodesWerePlanned(now, init, n);
      var i: nat, q :| PlannedAt(now, init, i, q, n) && KeepsToRequest(q, before[n]);
      assert NodeEvolves(before[n], after[n]);
      ReadsForLater(now, init, [m], i, Plan(q));
      assert PlannedAt(now, moves, i, q, n) && KeepsToRequest(q, after[n]);
    } else {
      var i: nat, op :| ReadsFor(now, init, i, op) &&
                        NodesLicensed(op, Reached(now, init[..i]).row.nodes, before, after);
      PlannedByRequest(op, Reached(now, init[..i]).row.nodes, before, after, n);
      ReadsForLater(now, init, [m], i, op);
      assert PlannedAt(now, moves, i, op.request, n) && KeepsToRequest(op.request, after[n]);
    }
  }

  /** Approval safety from the request: a node is READY, EXECUTING or COMPLETED only if the request that
      planned it asked for no approval (nor its policy, where the caller left it open), or an approval of it
      was asked for. */
  lemma RequestedApprovalHolds(now: real, moves: seq<Move>, n: nat)
    requires n < |Reached(now, moves).row.nodes|
    requires var status := Reached(now, moves).row.nodes[n].status;
      status.Ready? || status.Executing? || status.Completed?
    ensures exists i: nat, q ::
      && PlannedAt(now, moves, i, q, n) && KeepsToRequest(q, Reached(now, moves).row.nodes[n])
      && (q.approval == Some(true) || (q.approval.None? && q.policyApproval) ==> WasAsked(now, moves, Approve(n, true)))
  {
    NodesWerePlanned(now, moves, n);
    if Reached(now, moves).row.nodes[n].approvalRequired {
      ApprovalIsRespected(now, moves, n);
      ApprovedByDecision(now, moves, n);
    }
  }
}
