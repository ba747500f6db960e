/** What planning, deciding, retrying, executing and committing leave in the row, in statuses and fields. */
module Decisions {
  import opened Types
  import opened AbstractStore
  import opened Engine
  import opened Programs
  import opened Ledger

  // ---- plan ----

  /** `deps` are the distinct members of `asked`, in the order of their first occurrence. */
  ghost predicate FirstOccurrences(asked: seq<nat>, deps: seq<nat>) {
    && Distinct(deps) && (forall d :: d in deps <==> d in asked)
    && forall i, j :: 0 <= i < j < |deps| ==> FirstBefore(asked, deps[i], deps[j])
  }

  /** `d` occurs before any `e`. */
  ghost predicate FirstBefore(asked: seq<nat>, d: nat, e: nat) {
    exists a :: 0 <= a < |asked| && asked[a] == d && forall b :: 0 <= b <= a ==> asked[b] != e
  }

  lemma {:induction false} DedupKeepsOrder(asked: seq<nat>)
    ensures FirstOccurrences(asked, Dedup(asked))
  {
    if asked != [] {
      var rest, last := asked[..|asked| - 1], asked[|asked| - 1];
      var init, deps := Dedup(rest), Dedup(asked);
      DedupKeepsOrder(rest);
      assert asked == rest + [last];
      forall i, j | 0 <= i < j < |deps| ensures FirstBefore(asked, deps[i], deps[j]) {
        if j < |init| {
          assert FirstBefore(rest, deps[i], deps[j]);
          var a :| 0 <= a < |rest| && rest[a] == deps[i] && forall b :: 0 <= b <= a ==> rest[b] != deps[j];
          assert asked[a] == deps[i] && forall b :: 0 <= b <= a ==> asked[b] == rest[b];
        } else {
          assert deps[i] in rest && deps[j] !in rest;
          var a :| 0 <= a < |rest| && rest[a] == deps[i];
          assert asked[a] == deps[i] && forall b :: 0 <= b <= a ==> asked[b] == rest[b];
        }
      }
    }
  }

  /** The node a request asks for: gated by the caller's explicit word if there is one, else by the policy. */
  ghost predicate AsAsked(q: PlanRequest, node: Node) {
    && q.contract == Some(node.contract) && node.key == q.key && FirstOccurrences(q.deps, node.deps)
    && node.stepNo.None? && !node.uncertain
    && node.approvalRequired == (if q.approval.Some? then q.approval.value else q.policyApproval)
    && node.approval == (if node.approvalRequired then Pending else Unneeded)
  }

  ghost predicate MayPlan(row: Row, q: PlanRequest) {
    && row.status.Active? && q.contract.Some?
    && (forall d :: d in q.deps ==> d < |row.nodes|)
    && (q.key.Some? ==> (exists i :: 0 <= i < |q.key.value| && !IsSpace(q.key.value[i])))
    && (q.key.Some? ==> forall n :: 0 <= n < |row.nodes| ==> row.nodes[n].key != q.key)
  }

  /** One node more, as asked for and with the status its dependencies call for; the others refreshed. */
  ghost predicate Planned(row: Row, after: Row, q: PlanRequest) {
    && after.status == row.status && after.steps == row.steps && |after.nodes| == |row.nodes| + 1
    && AsAsked(q, after.nodes[|row.nodes|]) && Readied(after.nodes, |row.nodes|)
    && forall n :: 0 <= n < |row.nodes| ==>
         if WaitsOnDependencies(row.nodes[n])
         then after.nodes[n] == row.nodes[n].(status := after.nodes[n].status) && Readied(after.nodes, n)
         else after.nodes[n] == row.nodes[n]
  }

  lemma PlanMeaning(row: Row, q: PlanRequest)
    requires PlanOk(row.nodes, |row.steps|)
    ensures PlanAllowed(row, q) <==> MayPlan(row, q)
    ensures var after := RunRow(row, PlanProgram(row, q));
      if MayPlan(row, q) then Planned(row, after, q) else after == row
  {
    MayPlanIff(row, q);
    if PlanAllowed(row, q) {
      var node, nodes := PlannedNode(q), row.nodes + [PlannedNode(q)];
      DedupKeepsOrder(q.deps);
      RefreshMeaning(nodes);
      RunSnoc(row, [], SaveNodes(Refresh(nodes)));
      assert [] + [SaveNodes(Refresh(nodes))] == [SaveNodes(Refresh(nodes))];
      NewNodeReadied(row.nodes, q);
    }
  }

  lemma MayPlanIff(row: Row, q: PlanRequest)
    ensures PlanAllowed(row, q) <==> MayPlan(row, q)
  {
    assert (forall n :: n in row.nodes ==> n.key != q.key) <==>
           (forall n :: 0 <= n < |row.nodes| ==> row.nodes[n].key != q.key);
  }

  lemma NewNodeReadied(nodes: seq<Node>, q: PlanRequest)
    requires q.contract.Some? && Topological(nodes) && forall d :: d in q.deps ==> d < |nodes|
    ensures var g := Refresh(nodes + [PlannedNode(q)]);
      AsAsked(q, g[|nodes|]) && Readied(g, |nodes|)
  {
    var more := nodes + [PlannedNode(q)];
    RefreshMeaning(more);
    DedupKeepsOrder(q.deps);
    if q.deps == [] { assert Refresh(more)[|nodes|] == PlannedNode(q); }
  }

  // ---- approve ----

  ghost predicate MayDecide(row: Row, n: nat) {
    && (row.status.Active? || row.status.RecoveryRequired?)
    && n < |row.nodes| && row.nodes[n].approvalRequired
    && (row.nodes[n].status.WaitingApproval? || row.nodes[n].status.Rejected?)
  }

  ghost predicate DependenciesCompleted(nodes: seq<Node>, n: nat)
    requires n < |nodes|
  {
    forall d :: d in nodes[n].deps ==> d < |nodes| && nodes[d].status.Completed?
  }

  /** An approval makes the saga ACTIVE and the node READY or wait for its dependencies; a rejection makes
      the saga RECOVERY_REQUIRED and the node REJECTED. Nothing else changes. */
  ghost predicate Decided(row: Row, after: Row, n: nat, approved: bool) {
    && n < |row.nodes| == |after.nodes| && after.steps == row.steps
    && after.status == (if approved then Active else RecoveryRequired)
    && after.nodes[n].approval == (if approved then Approved else Refused)
    && after.nodes[n].status ==
         (if !approved then Rejected else if DependenciesCompleted(row.nodes, n) then Ready else WaitingDependency)
    && after.nodes[n] == row.nodes[n].(approval := after.nodes[n].approval, status := after.nodes[n].status)
    && forall m :: 0 <= m < |row.nodes| && m != n ==> after.nodes[m] == row.nodes[m]
  }

  lemma ApproveMeaning(row: Row, n: nat, approved: bool)
    ensures ApprovalPending(row, n) <==> MayDecide(row, n)
    ensures var after := RunRow(row, ApproveProgram(row, n, approved));
      if MayDecide(row, n) then Decided(row, after, n, approved) else after == row
  {
    if ApprovalPending(row, n) {
      DependencyMeaning(row.nodes[n].deps, row.nodes);
      var nodes := row.nodes[n := ApprovedNode(row.nodes[n], approved, row.nodes)];
      var events := ApproveProgram(row, n, approved);
      StatusThenNodes(row, RecoveryRequired, nodes);
      StatusThenNodes(row, Active, nodes);
      RunSnoc(row, [], SaveNodes(nodes));
      assert [] + [SaveNodes(nodes)] == [SaveNodes(nodes)];
    }
  }

  lemma StatusThenNodes(row: Row, status: SagaStatus, nodes: seq<Node>)
    ensures RunRow(row, [SetStatus(status)] + [SaveNodes(nodes)]) == Row(status, nodes, row.steps)
  {
    RunSnoc(row, [], SetStatus(status));
    assert [] + [SetStatus(status)] == [SetStatus(status)];
    RunSnoc(row, [SetStatus(status)], SaveNodes(nodes));
  }

  // ---- retry ----

  /** A stopped node of an operable saga; one with an uncertain outcome only by force. */
  ghost predicate MayRetry(row: Row, n: nat, force: bool) {
    && (row.status.Active? || row.status.RecoveryRequired?) && n < |row.nodes|
    && (row.nodes[n].status.Failed? || row.nodes[n].status.Rejected? || row.nodes[n].status.Blocked?)
    && (row.nodes[n].uncertain ==> force)
  }

  /** The node is certain again and keeps its step; without the approval it requires it waits for one
      anew, otherwise it has the status its dependencies call for. The others are refreshed. */
  ghost predicate Retried(row: Row, after: Row, n: nat) {
    && after.status.Active? && after.steps == row.steps && n < |row.nodes| == |after.nodes|
    && !after.nodes[n].uncertain
    && after.nodes[n] ==
         row.nodes[n].(status := after.nodes[n].status, approval := after.nodes[n].approval, uncertain := false)
    && (if row.nodes[n].approvalRequired && !row.nodes[n].approval.Approved?
        then after.nodes[n].status.WaitingApproval? && after.nodes[n].approval.Pending?
        else Readied(after.nodes, n) && after.nodes[n].approval == row.nodes[n].approval)
    && forall m :: 0 <= m < |row.nodes| && m != n ==>
         if WaitsOnDependencies(row.nodes[m])
         then after.nodes[m] == row.nodes[m].(status := after.nodes[m].status) && Readied(after.nodes, m)
         else after.nodes[m] == row.nodes[m]
  }

  lemma RetryMeaning(row: Row, n: nat, force: bool)
    requires Topological(row.nodes)
    ensures RetryAllowed(row, n, force) <==> MayRetry(row, n, force)
    ensures var after := RunRow(row, RetryProgram(row, n, force));
      if MayRetry(row, n, force) then Retried(row, after, n) else after == row
  {
    if RetryAllowed(row, n, force) {
      var nodes := row.nodes[n := RetriedNode(row.nodes[n], row.nodes)];
      assert Topological(nodes);
      RefreshMeaning(nodes);
      StatusThenNodes(row, Active, Refresh(nodes));
      assert RetryProgram(row, n, force) == [SetStatus(Active)] + [SaveNodes(Refresh(nodes))];
      if !(row.nodes[n].approvalRequired && !row.nodes[n].approval.Approved?) { RetriedReadied(row.nodes, n); }
    }
  }

  lemma MayRetryIff(row: Row, n: nat, force: bool)
    ensures RetryAllowed(row, n, force) <==> MayRetry(row, n, force)
  {
  }

  lemma RetriedReadied(nodes: seq<Node>, n: nat)
    requires Topological(nodes) && n < |nodes| && !nodes[n].status.Completed?
    requires !(nodes[n].approvalRequired && !nodes[n].approval.Approved?)
    ensures Readied(Refresh(nodes[n := RetriedNode(nodes[n], nodes)]), n)
  {
    var next := nodes[n := RetriedNode(nodes[n], nodes)];
    RefreshMeaning(next);
    DependencyMeaning(nodes[n].deps, nodes);
    if next[n].status.Ready? {
      var g := Refresh(next);
      forall d | d in g[n].deps ensures d < |g| && g[d].status.Completed? && !StoppedAt(g, d) {
        assert next[d] == nodes[d];
      }
    }
  }

  // ---- execute, commit ----

  /** Some allowed attempt succeeds. */
  ghost predicate SomeSucceeds(f: Forward) { exists j :: 1 <= j <= f.maxAttempts && f.attempt(j).Succeeded? }

  /** One step more, with the result of its attempts; a failure makes the saga RECOVERY_REQUIRED or FAILED
      as the contract says. */
  ghost predicate Executed(row: Row, after: Row, contract: Contract, success: bool) {
    && after.nodes == row.nodes
    && after.steps == row.steps + [Step(if success then StepStatus.Completed else StepStatus.Failed, 0, contract)]
    && after.status == (if success then row.status
                        else if contract.failureMode == Some(Pause) then RecoveryRequired else SagaStatus.Failed)
  }

  lemma ExecuteMeaning(row: Row, contract: Option<Contract>, o: Oracle)
    ensures var after := RunRow(row, ExecuteProgram(row, contract, o));
      if row.status.Active? && contract.Some? then Executed(row, after, contract.value, SomeSucceeds(o.forward))
      else after == row
  {
    if row.status.Active? && contract.Some? {
      var k, begun := |row.steps|, [Write(NewStep(FreshStep(contract.value)))];
      var calls := Attempts(None, k, TriesFrom(1, o.forward));
      var status := if contract.value.failureMode == Some(Pause) then RecoveryRequired else SagaStatus.Failed;
      RunSnoc(row, [], begun[0]);
      assert [] + begun == begun;
      RowAppends(row, begun, calls);
      CallsChangeNothing(RunRow(row, begun), calls);
      var mid := RunRow(row, begun + calls);
      RunSnoc(row, begun + calls, Mark(k, StepStatus.Completed));
      RunSnoc(row, begun + calls, Mark(k, StepStatus.Failed));
      RunSnoc(row, begun + calls + [Mark(k, StepStatus.Failed)], SetStatus(status));
      assert begun + calls + [Mark(k, StepStatus.Failed)] + [SetStatus(status)]
          == begun + calls + [Mark(k, StepStatus.Failed), SetStatus(status)];
    }
  }

  /** The step is journaled before anything is called, every call is for that step, and as many are made as
      the attempt loop makes. */
  lemma ExecuteCalls(row: Row, contract: Option<Contract>, o: Oracle)
    requires row.status.Active? && contract.Some?
    ensures var program, tries := ExecuteProgram(row, contract, o), TriesFrom(1, o.forward);
      && |program| > tries && program[0] == Write(NewStep(Step(StepStatus.Executing, 0, contract.value)))
      && (forall i :: 0 <= i < |program| ==> (program[i].Invoke? <==> 1 <= i <= tries))
      && (forall i :: 1 <= i <= tries ==> program[i] == Invoke(None, |row.steps|))
  {
    var k, tries := |row.steps|, TriesFrom(1, o.forward);
    var begun := [Write(NewStep(FreshStep(contract.value)))] + Attempts(None, k, tries);
    var program := ExecuteProgram(row, contract, o);
    assert program[..|begun|] == begun;
    assert forall i :: 0 <= i < |begun| ==> program[i] == begun[i];
  }

  lemma {:induction false} CallsChangeNothing(row: Row, calls: seq<Event>)
    requires forall i :: 0 <= i < |calls| ==> !calls[i].Write?
    ensures RunRow(row, calls) == row
    decreases |calls|
  {
    if calls != [] { CallsChangeNothing(row, calls[1..]); }
  }

  lemma CommitMeaning(row: Row)
    ensures var after := RunRow(row, CommitProgram(row));
      if row.status.Active? && forall n :: 0 <= n < |row.nodes| ==> row.nodes[n].status.Completed?
      then after == row.(status := Committed) else after == row
  {
    assert AllCompleted(row.nodes) <==> forall n :: 0 <= n < |row.nodes| ==> row.nodes[n].status.Completed?;
    RunSnoc(row, [], SetStatus(Committed));
    assert [] + [SetStatus(Committed)] == [SetStatus(Committed)];
  }

  // ---- the attempt loop ----

  /** The number of attempts made is exact: all but the last were raised, and the loop stopped because the
      last succeeded or was the last allowed. */
  lemma {:induction false} TriesAreExact(i: nat, f: Forward)
    requires 1 <= i <= f.maxAttempts
    ensures var last := i + TriesFrom(i, f) - 1;
      && i <= last <= f.maxAttempts
      && (forall j :: i <= j < last ==> f.attempt(j).Raised?)
      && (f.attempt(last).Succeeded? || last == f.maxAttempts)
    decreases f.maxAttempts - i
  {
    if !f.attempt(i).Succeeded? && i < f.maxAttempts { TriesAreExact(i + 1, f); }
  }
}
