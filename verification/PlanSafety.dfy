/** Planning, approving, retrying and committing keep the book good at every cut. */
module PlanSafety {
  import opened Types
  import opened AbstractStore
  import opened Engine
  import opened Programs
  import opened Ledger

  lemma EvolveTransitive(a: seq<Node>, b: seq<Node>, c: seq<Node>)
    requires NodesEvolve(a, b) && NodesEvolve(b, c)
    ensures NodesEvolve(a, c)
  {
    forall i | 0 <= i < |a| ensures NodeEvolves(a[i], c[i]) {
      assert NodeEvolves(a[i], b[i]) && NodeEvolves(b[i], c[i]);
    }
  }

  /** Refreshing keeps every plan-level invariant. */
  lemma RefreshKeepsPlan(nodes: seq<Node>, steps: nat)
    requires PlanOk(nodes, steps)
    ensures PlanOk(Refresh(nodes), steps)
    ensures NodesEvolve(nodes, Refresh(nodes))
    ensures DependenciesDone(nodes) ==> DependenciesDone(Refresh(nodes))
    ensures NoneInFlight(nodes) ==> NoneInFlight(Refresh(nodes))
  {
    RefreshPartial(nodes, nodes, Upto(|nodes|));
    var g := Refresh(nodes);
    forall i | 0 <= i < |nodes|
      ensures NodeEvolves(nodes[i], g[i]) && g[i].stepNo == nodes[i].stepNo
      ensures UnderWay(g[i]) ==> Cleared(g[i])
      ensures g[i].status.Executing? || g[i].status.Completed? ||
              nodes[i].status.Completed? || nodes[i].status.Executing? ==>
                g[i] == nodes[i]
    {
      assert PartialAt(nodes, g, i);
    }
    if DependenciesDone(nodes) {
      forall i, d: nat | 0 <= i < |g| && UnderWay(g[i]) && d in g[i].deps ensures d < |g| && g[d].status.Completed? {
        assert PartialAt(nodes, g, i);
        assert d in nodes[i].deps;
        assert UnderWay(nodes[i]) || Dependency(nodes[i].deps, nodes).DepReady?;
        assert d < |nodes| && nodes[d].status.Completed?;
      }
    }
  }

  /** Replacing one node by a cleared, journal-neutral version keeps the plan. */
  lemma ReplaceKeepsPlan(nodes: seq<Node>, steps: nat, n: nat, node: Node)
    requires PlanOk(nodes, steps) && n < |nodes|
    requires NodeEvolves(nodes[n], node) && node.stepNo == nodes[n].stepNo
    requires UnderWay(node) ==> Cleared(node)
    requires !node.status.Executing? && !node.status.Completed? && !nodes[n].status.Completed?
    ensures PlanOk(nodes[n := node], steps)
    ensures NodesEvolve(nodes, nodes[n := node])
    ensures (DependenciesDone(nodes) && (node.status.Ready? ==> Dependency(node.deps, nodes).DepReady?)) ==>
              DependenciesDone(nodes[n := node])
    ensures NoneInFlight(nodes) ==> NoneInFlight(nodes[n := node])
  {
    var g := nodes[n := node];
    assert forall i :: 0 <= i < |nodes| ==>
             g[i].key == nodes[i].key && g[i].stepNo == nodes[i].stepNo && g[i].deps == nodes[i].deps;
    if DependenciesDone(nodes) && (node.status.Ready? ==> Dependency(node.deps, nodes).DepReady?) {
      forall i, d: nat | 0 <= i < |g| && UnderWay(g[i]) && d in g[i].deps ensures d < |g| && g[d].status.Completed? {
        if i == n {
          assert nodes[d].status.Completed?;
        }
      }
    }
  }

  /** A planned node lands after its dependencies, so the plan stays acyclic. */
  lemma AppendKeepsPlan(nodes: seq<Node>, steps: nat, node: Node)
    requires PlanOk(nodes, steps)
    requires forall d :: d in node.deps ==> d < |nodes|
    requires node.stepNo.None? && !node.status.Executing? && !node.status.Completed?
    requires node.status.Ready? ==> node.deps == [] && Cleared(node)
    requires node.key.Some? ==> forall m :: m in nodes ==> m.key != node.key
    ensures PlanOk(nodes + [node], steps)
    ensures NodesEvolve(nodes, nodes + [node])
  {
    var g := nodes + [node];
    forall i | 0 <= i < |nodes| ensures g[i] == nodes[i] && nodes[i] in nodes {}
    assert g[|nodes|] == node;
    assert Topological(g);
    assert ApprovalsHold(g);
    assert Journaled(g, steps);
    assert KeysDistinct(g);
  }

  lemma AppendKeepsDependencies(nodes: seq<Node>, node: Node)
    requires DependenciesDone(nodes)
    requires !node.status.Executing? && !node.status.Completed? && (node.status.Ready? ==> node.deps == [])
    ensures DependenciesDone(nodes + [node])
  {
    var g := nodes + [node];
    forall i | 0 <= i < |g| && UnderWay(g[i]) ensures AllDone(g[i].deps, g) {
      if i < |nodes| {
        assert AllDone(nodes[i].deps, nodes);
      }
    }
  }

  lemma PlanSafe(b: Book, q: PlanRequest)
    requires Good(b)
    ensures Safe(b, PlanProgram(b.row, q))
  {
    if PlanAllowed(b.row, q) {
      var nodes := b.row.nodes + [PlannedNode(q)];
      AppendKeepsPlan(b.row.nodes, |b.row.steps|, PlannedNode(q));
      if DependenciesDone(b.row.nodes) { AppendKeepsDependencies(b.row.nodes, PlannedNode(q)); }
      RefreshKeepsPlan(nodes, |b.row.steps|);
      EvolveTransitive(b.row.nodes, nodes, Refresh(nodes));
      SaveSafe(b, None, Some(Refresh(nodes)));
    }
  }

  /** Moving an operable saga to ACTIVE or RECOVERY_REQUIRED and then saving its nodes. */
  lemma StatusThenNodesSafe(b: Book, status: SagaStatus, nodes: seq<Node>)
    requires Good(b) && Operable(b.row) && (status.Active? || status.RecoveryRequired?)
    requires PlanOk(nodes, |b.row.steps|) && NodesEvolve(b.row.nodes, nodes)
    requires DependenciesDone(b.row.nodes) ==> DependenciesDone(nodes)
    ensures Safe(b, [SetStatus(status)] + [SaveNodes(nodes)])
  {
    SaveSafe(b, Some(status), None);
    SafeEnd(b, [SetStatus(status)]);
    SaveSafe(RunBook(b, [SetStatus(status)]), None, Some(nodes));
    SafeAppend(b, [SetStatus(status)], [SaveNodes(nodes)]);
  }

  lemma ApproveSafe(b: Book, n: nat, approved: bool)
    requires Good(b)
    ensures Safe(b, ApproveProgram(b.row, n, approved))
  {
    if ApprovalPending(b.row, n) {
      var nodes := b.row.nodes[n := ApprovedNode(b.row.nodes[n], approved, b.row.nodes)];
      ReplaceKeepsPlan(b.row.nodes, |b.row.steps|, n, nodes[n]);
      if approved && b.row.status.Active? {
        SaveSafe(b, None, Some(nodes));
        assert ApproveProgram(b.row, n, approved) == [SaveNodes(nodes)];
      } else {
        var status := if approved then Active else RecoveryRequired;
        StatusThenNodesSafe(b, status, nodes);
        assert ApproveProgram(b.row, n, approved) == [SetStatus(status)] + [SaveNodes(nodes)];
      }
    }
  }

  lemma RetriedKeepsPlan(nodes: seq<Node>, steps: nat, n: nat)
    requires PlanOk(nodes, steps) && n < |nodes| && Stops(nodes[n].status)
    ensures var after := Refresh(nodes[n := RetriedNode(nodes[n], nodes)]);
      && PlanOk(after, steps)
      && NodesEvolve(nodes, after)
      && (DependenciesDone(nodes) ==> DependenciesDone(after))
  {
    var node := RetriedNode(nodes[n], nodes);
    ReplaceKeepsPlan(nodes, steps, n, node);
    RefreshKeepsPlan(nodes[n := node], steps);
    EvolveTransitive(nodes, nodes[n := node], Refresh(nodes[n := node]));
  }

  lemma RetrySafe(b: Book, n: nat, force: bool)
    requires Good(b)
    ensures Safe(b, RetryProgram(b.row, n, force))
  {
    if RetryAllowed(b.row, n, force) {
      var nodes := Refresh(b.row.nodes[n := RetriedNode(b.row.nodes[n], b.row.nodes)]);
      RetriedKeepsPlan(b.row.nodes, |b.row.steps|, n);
      StatusThenNodesSafe(b, Active, nodes);
      assert RetryProgram(b.row, n, force) == [SetStatus(Active)] + [SaveNodes(nodes)];
    }
  }

  lemma CommitSafe(b: Book)
    requires Good(b)
    ensures Safe(b, CommitProgram(b.row))
  {
    if b.row.status.Active? && AllCompleted(b.row.nodes) {
      SaveSafe(b, Some(Committed), None);
    }
  }
}
