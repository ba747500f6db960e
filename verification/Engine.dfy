/** Dependency readiness (engine.py, and `_refresh_nodes` of coordinator.py). */
module Engine {
  import opened Types

  datatype Readiness = DepReady | DepBlocked | DepWaiting

  predicate Stops(status: NodeStatus) {
    status.Failed? || status.Rejected? || status.Blocked?
  }

  function Dependency(deps: seq<nat>, nodes: seq<Node>): Readiness {
    if exists d :: d in deps && d >= |nodes| then DepBlocked
    else if forall d :: d in deps ==> nodes[d].status.Completed? then DepReady
    else if exists d :: d in deps && Stops(nodes[d].status) then DepBlocked
    else DepWaiting
  }

  predicate StoppedAt(nodes: seq<Node>, d: nat)
    requires d < |nodes|
  {
    nodes[d].status.Failed? || nodes[d].status.Rejected? || nodes[d].status.Blocked?
  }

  lemma DependencyMeaning(deps: seq<nat>, nodes: seq<Node>)
    ensures Dependency(deps, nodes).DepReady? <==> forall d :: d in deps ==> d < |nodes| && nodes[d].status.Completed?
    ensures Dependency(deps, nodes).DepBlocked? <==> exists d :: d in deps && (d >= |nodes| || StoppedAt(nodes, d))
  {
    if exists d :: d in deps && d < |nodes| && StoppedAt(nodes, d) {
      var d :| d in deps && d < |nodes| && StoppedAt(nodes, d);
      assert !nodes[d].status.Completed?;
    }
  }

  /** `dependency_status`: collects the statuses of the targets, then classifies them. */
  method DependencyStatus(node: Node, nodes: seq<Node>) returns (r: Readiness)
    ensures r == Dependency(node.deps, nodes)
    ensures r.DepReady? <==> forall d :: d in node.deps ==> d < |nodes| && nodes[d].status.Completed?
    ensures r.DepBlocked? <==> exists d :: d in node.deps && (d >= |nodes| || StoppedAt(nodes, d))
  {
    DependencyMeaning(node.deps, nodes);
    var statuses: seq<NodeStatus> := [];
    for i := 0 to |node.deps|
      invariant |statuses| == i
      invariant forall j :: 0 <= j < i ==> node.deps[j] < |nodes| && statuses[j] == nodes[node.deps[j]].status
    {
      if node.deps[i] >= |nodes| {
        assert node.deps[i] in node.deps;
        return DepBlocked;
      }
      statuses := statuses + [nodes[node.deps[i]].status];
    }
    var allDone, anyStop := true, false;
    for i := 0 to |statuses|
      invariant allDone == forall j :: 0 <= j < i ==> statuses[j].Completed?
      invariant anyStop == exists j :: 0 <= j < i && Stops(statuses[j])
    {
      allDone := allDone && statuses[i].Completed?;
      anyStop := anyStop || Stops(statuses[i]);
    }
    if anyStop {
      var j :| 0 <= j < |statuses| && Stops(statuses[j]);
      assert node.deps[j] in node.deps;
    }
    return if allDone then DepReady else if anyStop then DepBlocked else DepWaiting;
  }

  predicate Refreshable(node: Node) {
    node.status.WaitingDependency? || node.status.Blocked?
  }

  predicate Cleared(node: Node) {
    node.approvalRequired ==> node.approval.Approved?
  }

  /** The status `_refresh_nodes` gives a node whose dependencies are in state `r`. */
  function Settled(node: Node, r: Readiness): Node {
    match r
    case DepBlocked => node.(status := NodeStatus.Blocked)
    case DepWaiting => node.(status := WaitingDependency)
    case DepReady => node.(status := if Cleared(node) then Ready else WaitingApproval)
  }

  function Visit(nodes: seq<Node>, i: nat): seq<Node>
    requires i < |nodes|
  {
    if Refreshable(nodes[i])
    then nodes[i := Settled(nodes[i], Dependency(nodes[i].deps, nodes))]
    else nodes
  }

  predicate Inside(order: seq<nat>, n: nat) {
    forall p :: 0 <= p < |order| ==> order[p] < n
  }

  /** The order visits every one of `n` nodes, possibly more than once. */
  ghost predicate Covers(order: seq<nat>, n: nat) {
    forall i: nat :: i < n ==> i in order
  }

  /** Visits the nodes in the given order, each visit seeing the ones before it. */
  function RefreshAlong(nodes: seq<Node>, order: seq<nat>): (r: seq<Node>)
    requires Inside(order, |nodes|)
    ensures |r| == |nodes|
  {
    if order == [] then nodes
    else
      var before := RefreshAlong(nodes, order[..|order| - 1]);
      Visit(before, order[|order| - 1])
  }

  function Upto(n: nat): seq<nat> {
    seq(n, i requires 0 <= i < n => i)
  }

  /** `_refresh_nodes`: one pass in insertion order. */
  function Refresh(nodes: seq<Node>): (r: seq<Node>)
    ensures |r| == |nodes|
  {
    RefreshAlong(nodes, Upto(|nodes|))
  }

  /** Every dependency points at an earlier node. */
  ghost predicate Topological(nodes: seq<Node>) {
    forall i, d :: 0 <= i < |nodes| && d in nodes[i].deps ==> d < i
  }

  /** `g` solves the readiness equations posed by `nodes`. */
  ghost predicate Solves(nodes: seq<Node>, g: seq<Node>) {
    |g| == |nodes| && forall i :: 0 <= i < |nodes| ==> Solved(nodes, g, i)
  }

  ghost predicate Solved(nodes: seq<Node>, g: seq<Node>, i: nat)
    requires i < |nodes| == |g|
  {
    g[i] == if Refreshable(nodes[i]) then Settled(nodes[i], Dependency(nodes[i].deps, g)) else nodes[i]
  }

  /** A node's readiness depends only on the statuses of its dependencies. */
  lemma DependencyFrame(deps: seq<nat>, a: seq<Node>, b: seq<Node>)
    requires |a| == |b|
    requires forall d :: d in deps && d < |a| ==> a[d].status == b[d].status
    ensures Dependency(deps, a) == Dependency(deps, b)
  {
    if forall d :: d in deps ==> d < |a| {
      assert (forall d :: d in deps ==> a[d].status.Completed?) <==> (forall d :: d in deps ==> b[d].status.Completed?);
      assert (exists d :: d in deps && Stops(a[d].status)) <==> (exists d :: d in deps && Stops(b[d].status));
    }
  }

  /** The readiness equations of an acyclic plan have at most one solution. */
  lemma {:induction false} SolutionUnique(nodes: seq<Node>, g: seq<Node>, h: seq<Node>)
    requires Topological(nodes) && Solves(nodes, g) && Solves(nodes, h)
    ensures g == h
  {
    var i := 0;
    while i < |nodes|
      invariant 0 <= i <= |nodes|
      invariant forall j :: 0 <= j < i ==> g[j] == h[j]
    {
      assert Solved(nodes, g, i) && Solved(nodes, h, i);
      DependencyFrame(nodes[i].deps, g, h);
      i := i + 1;
    }
  }

  /** What any number of visits preserves: only statuses of refreshable nodes move, and a
      node leaves the refreshable set only once all its dependencies are done. */
  ghost predicate Partial(nodes: seq<Node>, g: seq<Node>) {
    |g| == |nodes| && forall i :: 0 <= i < |nodes| ==> PartialAt(nodes, g, i)
  }

  ghost predicate PartialAt(nodes: seq<Node>, g: seq<Node>, i: nat)
    requires i < |nodes| == |g|
  {
    if Refreshable(nodes[i]) then
      && g[i] == nodes[i].(status := g[i].status)
      && (Refreshable(g[i]) || (g[i] == Settled(nodes[i], DepReady) && Dependency(nodes[i].deps, nodes).DepReady?))
    else g[i] == nodes[i]
  }

  lemma ReadyIsStable(nodes: seq<Node>, g: seq<Node>, i: nat)
    requires Partial(nodes, g) && i < |nodes|
    ensures Dependency(nodes[i].deps, g).DepReady? <==> Dependency(nodes[i].deps, nodes).DepReady?
  {
    forall d | d in nodes[i].deps && d < |nodes|
      ensures g[d].status.Completed? <==> nodes[d].status.Completed?
    {
      assert PartialAt(nodes, g, d);
    }
  }

  lemma VisitPartial(nodes: seq<Node>, g: seq<Node>, i: nat)
    requires Partial(nodes, g) && i < |nodes|
    ensures Partial(nodes, Visit(g, i))
  {
    assert PartialAt(nodes, g, i);
    ReadyIsStable(nodes, g, i);
    forall j | 0 <= j < |nodes| ensures PartialAt(nodes, Visit(g, i), j) {
      assert PartialAt(nodes, g, j);
    }
  }

  lemma {:induction false} RefreshPartial(nodes: seq<Node>, g: seq<Node>, order: seq<nat>)
    requires Partial(nodes, g)
    requires Inside(order, |nodes|)
    ensures Partial(nodes, RefreshAlong(g, order))
  {
    if order != [] {
      RefreshPartial(nodes, g, order[..|order| - 1]);
      VisitPartial(nodes, RefreshAlong(g, order[..|order| - 1]), order[|order| - 1]);
    }
  }

  /** The first `n` nodes already carry their final status. */
  ghost predicate SolvedUpto(nodes: seq<Node>, g: seq<Node>, n: nat) {
    |g| == |nodes| && n <= |nodes| && forall i :: 0 <= i < n ==> Solved(nodes, g, i)
  }

  /** Visiting any node keeps the settled prefix, and settles node `n` when it is the one visited. */
  lemma VisitSettles(nodes: seq<Node>, g: seq<Node>, n: nat, i: nat)
    requires Topological(nodes) && Partial(nodes, g) && SolvedUpto(nodes, g, n) && i < |nodes|
    ensures SolvedUpto(nodes, Visit(g, i), n)
    ensures i < n ==> Visit(g, i) == g
    ensures i == n < |nodes| ==> SolvedUpto(nodes, Visit(g, i), n + 1)
  {
    var h := Visit(g, i);
    assert PartialAt(nodes, g, i);
    if i < n {
      assert Solved(nodes, g, i);
      assert h == g;
    } else {
      forall j | 0 <= j < n ensures Solved(nodes, h, j) {
        assert Solved(nodes, g, j);
        DependencyFrame(nodes[j].deps, g, h);
      }
      if i == n {
        DependencyFrame(nodes[n].deps, g, h);
        ReadyIsStable(nodes, g, n);
        assert Solved(nodes, h, n);
      }
    }
  }

  lemma {:induction false} PassKeeps(nodes: seq<Node>, g: seq<Node>, n: nat, order: seq<nat>)
    requires Topological(nodes) && Partial(nodes, g) && SolvedUpto(nodes, g, n)
    requires Inside(order, |nodes|)
    ensures SolvedUpto(nodes, RefreshAlong(g, order), n)
    ensures n < |nodes| && n in order ==> SolvedUpto(nodes, RefreshAlong(g, order), n + 1)
  {
    if order != [] {
      var init, last := order[..|order| - 1], order[|order| - 1];
      PassKeeps(nodes, g, n, init);
      RefreshPartial(nodes, g, init);
      VisitSettles(nodes, RefreshAlong(g, init), n, last);
      if n < |nodes| && n in order && last != n {
        assert order == init + [last];
        VisitSettles(nodes, RefreshAlong(g, init), n + 1, last);
      }
    }
  }

  lemma {:induction false} InsertionPass(nodes: seq<Node>, n: nat)
    requires Topological(nodes) && n <= |nodes|
    ensures SolvedUpto(nodes, RefreshAlong(nodes, Upto(n)), n)
  {
    if n > 0 {
      InsertionPass(nodes, n - 1);
      assert Upto(n)[..n - 1] == Upto(n - 1);
      RefreshPartial(nodes, nodes, Upto(n - 1));
      VisitSettles(nodes, RefreshAlong(nodes, Upto(n - 1)), n - 1, n - 1);
    }
  }

  /** One pass in insertion order reaches the only solution of the readiness equations,
      and a second pass changes nothing. */
  lemma RefreshIsFixpoint(nodes: seq<Node>)
    requires Topological(nodes)
    ensures Solves(nodes, Refresh(nodes))
    ensures forall g :: Solves(nodes, g) ==> g == Refresh(nodes)
    ensures Refresh(Refresh(nodes)) == Refresh(nodes)
  {
    InsertionPass(nodes, |nodes|);
    var g := Refresh(nodes);
    forall h | Solves(nodes, h) ensures h == g {
      SolutionUnique(nodes, g, h);
    }
    RefreshPartial(nodes, nodes, Upto(|nodes|));
    forall i, d | 0 <= i < |g| && d in g[i].deps ensures d < i {
      assert PartialAt(nodes, g, i);
    }
    InsertionPass(g, |g|);
    forall i | 0 <= i < |g| ensures Solved(g, g, i) {
      assert Solved(nodes, g, i) && PartialAt(nodes, g, i);
    }
    SolutionUnique(g, g, Refresh(g));
  }

  /** Node `n` has the status its dependencies and its approval call for. */
  ghost predicate Readied(g: seq<Node>, n: nat)
    requires n < |g|
  {
    var done := forall d :: d in g[n].deps ==> d < |g| && g[d].status.Completed?;
    var stopped := exists d :: d in g[n].deps && d < |g| && StoppedAt(g, d);
    var cleared := !g[n].approvalRequired || g[n].approval.Approved?;
    && (g[n].status.Ready? <==> done && cleared)
    && (g[n].status.WaitingApproval? <==> done && !cleared)
    && (g[n].status.Blocked? <==> stopped)
    && (g[n].status.WaitingDependency? <==> !done && !stopped)
  }

  ghost predicate WaitsOnDependencies(node: Node) { node.status.WaitingDependency? || node.status.Blocked? }

  /** Only nodes that wait on dependencies or are blocked change, only in their status, and to the one
      their refreshed dependencies call for. */
  ghost predicate RefreshedFrom(nodes: seq<Node>, g: seq<Node>) {
    |g| == |nodes| &&
    forall n :: 0 <= n < |nodes| ==>
      if WaitsOnDependencies(nodes[n]) then g[n] == nodes[n].(status := g[n].status) && Readied(g, n)
      else g[n] == nodes[n]
  }

  /** What a refresh means. */
  lemma RefreshMeaning(nodes: seq<Node>)
    requires Topological(nodes)
    ensures RefreshedFrom(nodes, Refresh(nodes))
  {
    RefreshIsFixpoint(nodes);
    RefreshPartial(nodes, nodes, Upto(|nodes|));
    var g := Refresh(nodes);
    forall n | 0 <= n < |nodes|
      ensures if WaitsOnDependencies(nodes[n]) then g[n] == nodes[n].(status := g[n].status) && Readied(g, n)
              else g[n] == nodes[n]
    {
      assert Solved(nodes, g, n) && PartialAt(nodes, g, n);
      DependencyMeaning(nodes[n].deps, g);
      if WaitsOnDependencies(nodes[n]) { SolvedIsReadied(nodes, g, n); }
    }
  }

  lemma SolvedIsReadied(nodes: seq<Node>, g: seq<Node>, n: nat)
    requires |g| == |nodes| && n < |nodes| && Topological(nodes) && Refreshable(nodes[n])
    requires g[n] == Settled(nodes[n], Dependency(nodes[n].deps, g))
    ensures Readied(g, n)
  {
    assert g[n].deps == nodes[n].deps;
    DependencyMeaning(g[n].deps, g);
    assert forall d :: d in g[n].deps ==> d < |g|;
  }

  /** Repeated passes, the p-th one in the order `orders[p]`. */
  function Passes(nodes: seq<Node>, orders: seq<seq<nat>>): (r: seq<Node>)
    requires forall p :: 0 <= p < |orders| ==> Inside(orders[p], |nodes|)
    ensures |r| == |nodes|
  {
    if orders == [] then nodes
    else RefreshAlong(Passes(nodes, orders[..|orders| - 1]), orders[|orders| - 1])
  }

  lemma {:induction false} PassesSettle(nodes: seq<Node>, orders: seq<seq<nat>>)
    requires Topological(nodes) && |orders| <= |nodes|
    requires forall p :: 0 <= p < |orders| ==> Inside(orders[p], |nodes|) && Covers(orders[p], |nodes|)
    ensures Partial(nodes, Passes(nodes, orders))
    ensures SolvedUpto(nodes, Passes(nodes, orders), |orders|)
  {
    if orders != [] {
      var init := orders[..|orders| - 1];
      PassesSettle(nodes, init);
      PassKeeps(nodes, Passes(nodes, init), |init|, orders[|orders| - 1]);
      RefreshPartial(nodes, Passes(nodes, init), orders[|orders| - 1]);
    }
  }

  /** Whatever order each pass visits the nodes in, as many passes as there are nodes reach
      the result of the single insertion-order pass. */
  lemma AnyOrderConverges(nodes: seq<Node>, orders: seq<seq<nat>>)
    requires Topological(nodes) && |orders| == |nodes|
    requires forall p :: 0 <= p < |orders| ==> Inside(orders[p], |nodes|) && Covers(orders[p], |nodes|)
    ensures Passes(nodes, orders) == Refresh(nodes)
  {
    PassesSettle(nodes, orders);
    RefreshIsFixpoint(nodes);
    assert Solves(nodes, Passes(nodes, orders));
  }

  /** A dependency path from node `path[0]` through refreshable nodes to a failed or rejected one. */
  ghost predicate StopPath(nodes: seq<Node>, path: seq<nat>) {
    && |path| >= 2
    && (forall j :: 0 <= j < |path| ==> path[j] < |nodes|)
    && (forall j :: 0 <= j < |path| - 1 ==> Refreshable(nodes[path[j]]) && path[j + 1] in nodes[path[j]].deps)
    && (nodes[path[|path| - 1]].status.Failed? || nodes[path[|path| - 1]].status.Rejected?)
  }

  lemma {:induction false} BlockedHasPath(nodes: seq<Node>, i: nat) returns (path: seq<nat>)
    requires Topological(nodes) && i < |nodes| && Refreshable(nodes[i])
    requires Refresh(nodes)[i].status.Blocked?
    ensures StopPath(nodes, path) && path[0] == i
    decreases i
  {
    RefreshIsFixpoint(nodes);
    var g := Refresh(nodes);
    assert Solved(nodes, g, i);
    var d :| d in nodes[i].deps && Stops(g[d].status);
    assert Solved(nodes, g, d);
    if Refreshable(nodes[d]) {
      var rest := BlockedHasPath(nodes, d);
      path := [i] + rest;
      forall j | 0 <= j < |path| - 1 ensures Refreshable(nodes[path[j]]) && path[j + 1] in nodes[path[j]].deps {
        if j > 0 { assert path[j] == rest[j - 1] && path[j + 1] == rest[j]; }
      }
    } else {
      path := [i, d];
    }
  }

  lemma {:induction false} PathBlocks(nodes: seq<Node>, path: seq<nat>)
    requires Topological(nodes) && StopPath(nodes, path)
    ensures Refresh(nodes)[path[0]].status.Blocked?
    decreases |path|
  {
    RefreshIsFixpoint(nodes);
    var g := Refresh(nodes);
    var i, d := path[0], path[1];
    assert Refreshable(nodes[i]) && d in nodes[i].deps;
    assert Solved(nodes, g, i) && Solved(nodes, g, d);
    if |path| > 2 {
      var rest := path[1..];
      forall j | 0 <= j < |rest| - 1 ensures Refreshable(nodes[rest[j]]) && rest[j + 1] in nodes[rest[j]].deps {
        assert rest[j] == path[j + 1] && rest[j + 1] == path[j + 2];
      }
      PathBlocks(nodes, rest);
    }
    assert Stops(g[d].status);
  }

  /** A refreshable node ends BLOCKED exactly when a dependency path through refreshable
      nodes reaches a failed or rejected node. */
  lemma BlockedIffPath(nodes: seq<Node>, i: nat)
    requires Topological(nodes) && i < |nodes| && Refreshable(nodes[i])
    ensures Refresh(nodes)[i].status.Blocked? <==> exists path :: StopPath(nodes, path) && path[0] == i
  {
    if Refresh(nodes)[i].status.Blocked? {
      var path := BlockedHasPath(nodes, i);
    }
    if path :| StopPath(nodes, path) && path[0] == i {
      PathBlocks(nodes, path);
    }
  }
}
