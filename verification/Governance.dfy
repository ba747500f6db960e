/** Risk accounting and the budget gates around the coordinator (governance.py). */
module Governance {
  import opened Types
  import opened AbstractStore
  import opened Engine
  import opened Programs
  import opened Ledger
  import opened PlanSafety
  import opened WaveSafety
  import opened RollbackResults
  import opened RunResults
  import opened Interleaving
  import opened Aborts
  import Decisions
  import opened Policy

  type Weights = map<string, int>

  /** `_risk_weight`: an unlisted risk weighs what "unknown" weighs. */
  function RiskWeight(weights: Weights, risk: string): nat {
    var value := if RiskName(risk) in weights then weights[RiskName(risk)]
                 else if "unknown" in weights then weights["unknown"] else 3;
    if value >= 0 then value else 3
  }

  /** A listed risk weighs what the list says, an unlisted one what "unknown" weighs, and three where nothing
      usable is listed. */
  lemma RiskWeightMeaning(ws: Weights, risk: string)
    ensures RiskName(risk) in ws && ws[RiskName(risk)] >= 0 ==> RiskWeight(ws, risk) == ws[RiskName(risk)]
    ensures RiskName(risk) in ws && ws[RiskName(risk)] < 0 ==> RiskWeight(ws, risk) == 3
    ensures RiskName(risk) !in ws && "unknown" in ws && ws["unknown"] >= 0 ==> RiskWeight(ws, risk) == ws["unknown"]
    ensures RiskName(risk) !in ws && ("unknown" !in ws || ws["unknown"] < 0) ==> RiskWeight(ws, risk) == 3
    ensures risk == "" ==> RiskWeight(ws, risk) == RiskWeight(ws, "unknown")
  {
    if risk == "" {
      assert Lower("unknown") == "unknown";
    }
  }

  predicate Linked(nodes: seq<Node>, k: nat) {
    exists n :: 0 <= n < |nodes| && nodes[n].stepNo == Some(k)
  }

  function NodesRisk(nodes: seq<Node>, ws: Weights): nat {
    if nodes == [] then 0 else NodesRisk(nodes[..|nodes| - 1], ws) + RiskWeight(ws, nodes[|nodes| - 1].contract.risk)
  }

  function StepsRisk(steps: seq<Step>, ws: Weights): nat {
    if steps == [] then 0 else StepsRisk(steps[..|steps| - 1], ws) + RiskWeight(ws, steps[|steps| - 1].contract.risk)
  }

  function UnlinkedRisk(nodes: seq<Node>, steps: seq<Step>, ws: Weights): nat {
    if steps == [] then 0
    else
      UnlinkedRisk(nodes, steps[..|steps| - 1], ws)
      + if Linked(nodes, |steps| - 1) then 0 else RiskWeight(ws, steps[|steps| - 1].contract.risk)
  }

  /** Every node once, and every step no node is linked to once. */
  function RiskUnits(row: Row, ws: Weights): nat { NodesRisk(row.nodes, ws) + UnlinkedRisk(row.nodes, row.steps, ws) }

  datatype UsageReport = UsageReport(steps: nat, plannedNodes: nat, riskUnits: nat)

  method Usage(row: Row, ws: Weights) returns (usage: UsageReport)
    ensures usage == UsageReport(|row.steps|, |row.nodes|, RiskUnits(row, ws))
  {
    var nodeSteps := set n | 0 <= n < |row.nodes| && row.nodes[n].stepNo.Some? :: row.nodes[n].stepNo.value;
    var riskUnits := 0;
    for i := 0 to |row.nodes|
      invariant riskUnits == NodesRisk(row.nodes[..i], ws)
    {
      assert row.nodes[..i + 1][..i] == row.nodes[..i];
      riskUnits := riskUnits + RiskWeight(ws, row.nodes[i].contract.risk);
    }
    assert row.nodes[..|row.nodes|] == row.nodes;
    for k := 0 to |row.steps|
      invariant riskUnits == NodesRisk(row.nodes, ws) + UnlinkedRisk(row.nodes, row.steps[..k], ws)
    {
      assert row.steps[..k + 1][..k] == row.steps[..k];
      assert k in nodeSteps <==> Linked(row.nodes, k);
      if k !in nodeSteps { riskUnits := riskUnits + RiskWeight(ws, row.steps[k].contract.risk); }
    }
    assert row.steps[..|row.steps|] == row.steps;
    usage := UsageReport(|row.steps|, |row.nodes|, riskUnits);
  }

  // ---- when two rows are charged alike ----

  /** The same nodes under the same contracts. */
  ghost predicate SameNodes(a: seq<Node>, b: seq<Node>) {
    |a| == |b| && forall n :: 0 <= n < |a| ==> a[n].contract == b[n].contract
  }

  /** Steps of `a` are steps of `b` under the same contracts, and linked alike. */
  ghost predicate SameSteps(a: Row, b: Row) {
    |a.steps| <= |b.steps| &&
    forall k :: 0 <= k < |a.steps| ==>
      a.steps[k].contract == b.steps[k].contract && (Linked(a.nodes, k) <==> Linked(b.nodes, k))
  }

  /** Every step `b` has on top of `a` belongs to a node. */
  ghost predicate NewStepsLinked(a: Row, b: Row) {
    forall k :: |a.steps| <= k < |b.steps| ==> Linked(b.nodes, k)
  }

  ghost predicate ChargedAlike(a: Row, b: Row) {
    SameNodes(a.nodes, b.nodes) && SameSteps(a, b) && NewStepsLinked(a, b)
  }

  lemma {:induction false} NodesRiskSame(a: seq<Node>, b: seq<Node>, ws: Weights)
    requires SameNodes(a, b)
    ensures NodesRisk(a, ws) == NodesRisk(b, ws)
  {
    if a != [] { NodesRiskSame(a[..|a| - 1], b[..|b| - 1], ws); }
  }

  lemma UnlinkedRiskPrefix(a: Row, n: nat, ws: Weights)
    requires 0 < n <= |a.steps|
    ensures UnlinkedRisk(a.nodes, a.steps[..n], ws)
         == UnlinkedRisk(a.nodes, a.steps[..n - 1], ws)
            + if Linked(a.nodes, n - 1) then 0 else RiskWeight(ws, a.steps[n - 1].contract.risk)
  {
    assert a.steps[..n][..n - 1] == a.steps[..n - 1];
  }

  lemma {:induction false} UnlinkedRiskSame(a: Row, b: Row, n: nat, ws: Weights)
    requires SameSteps(a, b) && NewStepsLinked(a, b) && n <= |b.steps|
    ensures UnlinkedRisk(b.nodes, b.steps[..n], ws)
            == UnlinkedRisk(a.nodes, a.steps[..if n <= |a.steps| then n else |a.steps|], ws)
  {
    if n > 0 {
      UnlinkedRiskSame(a, b, n - 1, ws);
      UnlinkedRiskPrefix(b, n, ws);
      if n <= |a.steps| { UnlinkedRiskPrefix(a, n, ws); }
    }
  }

  lemma ChargedAlikeSameRisk(a: Row, b: Row, ws: Weights)
    requires ChargedAlike(a, b)
    ensures RiskUnits(a, ws) == RiskUnits(b, ws)
  {
    NodesRiskSame(a.nodes, b.nodes, ws);
    UnlinkedRiskSame(a, b, |b.steps|, ws);
    assert a.steps[..|a.steps|] == a.steps && b.steps[..|b.steps|] == b.steps;
  }

  lemma ChargedAlikeTrans(a: Row, b: Row, c: Row)
    requires ChargedAlike(a, b) && ChargedAlike(b, c)
    ensures ChargedAlike(a, c)
  {
    forall k | |a.steps| <= k < |c.steps| ensures Linked(c.nodes, k) {
      if k < |b.steps| { assert Linked(b.nodes, k); }
    }
  }

  /** Unlinked steps on top add exactly their own weight. */
  lemma {:induction false} OrphansAdd(nodes: seq<Node>, steps: seq<Step>, more: seq<Step>, ws: Weights)
    requires forall k :: |steps| <= k < |steps| + |more| ==> !Linked(nodes, k)
    ensures UnlinkedRisk(nodes, steps + more, ws) == UnlinkedRisk(nodes, steps, ws) + StepsRisk(more, ws)
  {
    if more == [] {
      assert steps + more == steps;
    } else {
      assert (steps + more)[..|steps| + |more| - 1] == steps + more[..|more| - 1];
      OrphansAdd(nodes, steps, more[..|more| - 1], ws);
    }
  }

  // ---- one wave ----

  /** Nodes keep their contract and their step, in place. */
  ghost predicate SameLinks(a: seq<Node>, b: seq<Node>) {
    |a| == |b| && forall n :: 0 <= n < |a| ==> a[n].contract == b[n].contract && a[n].stepNo == b[n].stepNo
  }

  lemma SameLinksLinked(a: seq<Node>, b: seq<Node>, k: nat)
    requires SameLinks(a, b)
    ensures Linked(a, k) <==> Linked(b, k)
  {
    if Linked(a, k) {
      var n :| 0 <= n < |a| && a[n].stepNo == Some(k);
      assert b[n].stepNo == Some(k);
    }
    if Linked(b, k) {
      var n :| 0 <= n < |b| && b[n].stepNo == Some(k);
      assert a[n].stepNo == Some(k);
    }
  }

  lemma SameLinksChargedAlike(a: Row, b: Row)
    requires SameLinks(a.nodes, b.nodes) && |a.steps| == |b.steps|
    requires forall k :: 0 <= k < |a.steps| ==> a.steps[k].contract == b.steps[k].contract
    ensures ChargedAlike(a, b)
  {
    forall k | 0 <= k < |a.steps| ensures Linked(a.nodes, k) <==> Linked(b.nodes, k) {
      SameLinksLinked(a.nodes, b.nodes, k);
    }
  }

  lemma RefreshKeepsLinks(nodes: seq<Node>)
    ensures SameLinks(nodes, Refresh(nodes))
  {
    RefreshPartial(nodes, nodes, Upto(|nodes|));
    forall n | 0 <= n < |nodes|
      ensures nodes[n].contract == Refresh(nodes)[n].contract && nodes[n].stepNo == Refresh(nodes)[n].stepNo
    {
      assert PartialAt(nodes, Refresh(nodes), n);
    }
  }

  /** While a wave is prepared: a node that gets a step gets a new one, and every new step got a node. */
  ghost predicate LinkKept(a: Row, nodes: seq<Node>, n: nat) {
    && n < |nodes| && n < |a.nodes| && a.nodes[n].contract == nodes[n].contract
    && (a.nodes[n].stepNo.Some? ==> nodes[n].stepNo == a.nodes[n].stepNo)
    && (a.nodes[n].stepNo.None? && nodes[n].stepNo.Some? ==> nodes[n].stepNo.value >= |a.steps|)
  }

  ghost predicate Preparing(a: Row, p: Prep) {
    && |p.nodes| == |a.nodes| && (forall n :: 0 <= n < |p.nodes| ==> LinkKept(a, p.nodes, n))
    && |a.steps| <= |p.steps|
    && (forall k :: 0 <= k < |a.steps| ==> a.steps[k].contract == p.steps[k].contract)
    && (forall k :: |a.steps| <= k < |p.steps| ==> Linked(p.nodes, k))
  }

  lemma PrepareOneLinks(a: Row, p: Prep, n: nat, w: nat, o: Oracle)
    requires Preparing(a, p) && n < |p.nodes|
    ensures Preparing(a, PrepareOne(p, n, w, o))
  {
    var q := PrepareOne(p, n, w, o);
    assert LinkKept(a, p.nodes, n);
    forall m | 0 <= m < |q.nodes| ensures LinkKept(a, q.nodes, m) { assert LinkKept(a, p.nodes, m); }
    forall k | |a.steps| <= k < |q.steps| ensures Linked(q.nodes, k) {
      if k < |p.steps| {
        assert Linked(p.nodes, k);
        var m :| 0 <= m < |p.nodes| && p.nodes[m].stepNo == Some(k);
        assert q.nodes[m].stepNo == Some(k);
      } else {
        assert q.nodes[n].stepNo == Some(k);
      }
    }
  }

  lemma {:induction false} PrepareLinks(a: Row, p: Prep, wave: seq<nat>, w: nat, o: Oracle)
    requires Preparing(a, p) && forall i :: 0 <= i < |wave| ==> wave[i] < |p.nodes|
    ensures Preparing(a, Prepare(p, wave, w, o))
    decreases |wave|
  {
    if wave != [] && !p.aborted {
      PrepareOneLinks(a, p, wave[0], w, o);
      PrepareLinks(a, PrepareOne(p, wave[0], w, o), wave[1..], w, o);
    }
  }

  lemma PreparedLinks(row: Row, maxParallel: int, budget: int, w: nat, o: Oracle)
    requires maxParallel >= 1 && budget >= 1
    ensures Preparing(row, Prepared(row, maxParallel, budget, w, o))
  {
    var nodes := Refresh(row.nodes);
    var ready := ReadyNodes(nodes);
    RefreshKeepsLinks(row.nodes);
    var p := Prep(nodes, row.steps, [], [], false);
    forall n | 0 <= n < |nodes| ensures LinkKept(row, nodes, n) {}
    PrepareLinks(row, p, ready[..Min(Min(maxParallel, budget), |ready|)], w, o);
  }

  /** Saving the prepared nodes settles the account. */
  lemma PreparedChargedAlike(row: Row, p: Prep, status: SagaStatus)
    requires Preparing(row, p)
    ensures ChargedAlike(row, Row(status, p.nodes, p.steps))
  {
    forall n | 0 <= n < |row.nodes| ensures row.nodes[n].contract == p.nodes[n].contract {
      assert LinkKept(row, p.nodes, n);
    }
    forall k | 0 <= k < |row.steps| ensures Linked(row.nodes, k) <==> Linked(p.nodes, k) {
      if Linked(row.nodes, k) {
        var n :| 0 <= n < |row.nodes| && row.nodes[n].stepNo == Some(k);
        assert LinkKept(row, p.nodes, n) && p.nodes[n].stepNo == Some(k);
      }
      if Linked(p.nodes, k) {
        var n :| 0 <= n < |p.nodes| && p.nodes[n].stepNo == Some(k);
        assert LinkKept(row, p.nodes, n) && row.nodes[n].stepNo == Some(k);
      }
    }
  }

  lemma DoneChargedAlike(p: Prep, w: nat, o: Oracle, status: SagaStatus)
    requires PlanOk(p.nodes, |p.steps|) && PreparedSide(p) && p.prepared != []
    ensures ChargedAlike(Row(Active, p.nodes, p.steps),
                         Row(status, DoneNodes(p.nodes, p.prepared, w, o), DoneSteps(p, w, o)))
  {
    RefreshKeepsLinks(FinishedNodes(p.nodes, p.prepared, w, o));
    var before := Row(Active, p.nodes, p.steps);
    var b := Bare(before);
    FinishEventsAreMarks(p, w, o);
    MarksSafe(b, FinishEvents(p.nodes, p.prepared, w, o));
    MarksKeepContracts(before, FinishEvents(p.nodes, p.prepared, w, o));
    SameLinksChargedAlike(before, Row(status, DoneNodes(p.nodes, p.prepared, w, o), DoneSteps(p, w, o)));
  }

  lemma {:induction false} MarksKeepContracts(row: Row, events: seq<Event>)
    requires forall i :: 0 <= i < |events| ==> events[i].Write? && events[i].change.SetStep?
    ensures |RunRow(row, events).steps| == |row.steps|
    ensures forall k :: 0 <= k < |row.steps| ==> RunRow(row, events).steps[k].contract == row.steps[k].contract
    decreases |events|
  {
    if events != [] { MarksKeepContracts(After(row, events[0]), events[1..]); }
  }

  /** A wave is charged alike, unless it aborts: then exactly the steps it journaled are added, unlinked. */
  lemma WaveCharge(row: Row, maxParallel: int, budget: int, w: nat, o: Oracle)
    requires Runs(row) && maxParallel >= 1 && budget >= 1
    ensures var wave := RunWave(row, maxParallel, budget, w, o);
      var after := RunRow(row, wave.events);
      if wave.verdict.Aborted? then
        var p := Prepared(row, maxParallel, budget, w, o);
        after.nodes == row.nodes && Preparing(row, p) && after.steps == p.steps
      else ChargedAlike(row, after)
  {
    var wave := RunWave(row, maxParallel, budget, w, o);
    var p := Prepared(row, maxParallel, budget, w, o);
    PreparedLinks(row, maxParallel, budget, w, o);
    PreparationHolds(row, maxParallel, budget, w, o);
    var b := Bare(row);
    match wave.verdict
    case Idle =>
      IdleRow(row, maxParallel, budget, w, o);
      RefreshKeepsLinks(row.nodes);
      SameLinksChargedAlike(row, RunRow(row, wave.events));
    case Aborted =>
      RowOfBook(b, p.events);
    case Stuck =>
      SavePrepared(b, p);
      RowOfBook(b, wave.events);
      PreparedChargedAlike(row, p, Active);
    case WaveFailed =>
      FailedCharge(row, p, w, o, FailureStatus(p.nodes, p.prepared, w, o));
    case Continued =>
      ContinuedRow(row, maxParallel, budget, w, o);
      PreparedChargedAlike(row, p, Active);
      DoneChargedAlike(p, w, o, Active);
      ChargedAlikeTrans(row, Row(Active, p.nodes, p.steps), RunRow(row, wave.events));
  }

  lemma FailedCharge(row: Row, p: Prep, w: nat, o: Oracle, status: SagaStatus)
    requires PrepOk(Bare(row), p) && Preparing(row, p) && p.prepared != []
    ensures var ran := p.events + [SaveNodes(p.nodes)] + Execution(p.nodes, p.prepared, w, o);
      ChargedAlike(row, RunRow(row, ran + [SetStatus(status)]))
  {
    var ran := p.events + [SaveNodes(p.nodes)] + Execution(p.nodes, p.prepared, w, o);
    RanSafe(Bare(row), p, w, o);
    RowOfBook(Bare(row), ran);
    RowAppends(row, ran, [SetStatus(status)]);
    var mid := RunRow(row, ran);
    assert RunRow(mid, [SetStatus(status)]) == After(mid, SetStatus(status));
    PreparedChargedAlike(row, p, Active);
    DoneChargedAlike(p, w, o, status);
    ChargedAlikeTrans(row, Row(Active, p.nodes, p.steps),
                      Row(status, DoneNodes(p.nodes, p.prepared, w, o), DoneSteps(p, w, o)));
  }

  // ---- a whole call of run_ready_steps ----

  function NodeRisk(nodes: seq<Node>, n: nat, ws: Weights): nat {
    if n < |nodes| then RiskWeight(ws, nodes[n].contract.risk) else 0
  }

  function RiskOf(nodes: seq<Node>, ns: seq<nat>, ws: Weights): nat {
    if ns == [] then 0 else RiskOf(nodes, ns[..|ns| - 1], ws) + NodeRisk(nodes, ns[|ns| - 1], ws)
  }

  /** What a wave charges on top: if some member does not resolve, the weight of the members before the
      first such one that need a step. */
  function WaveExcess(row: Row, members: seq<nat>, w: nat, o: Oracle, ws: Weights): nat {
    if SomeUnresolved(members, w, o) then RiskOf(row.nodes, NewlyJournaled(row.nodes, members, w, o), ws) else 0
  }

  /** Member `i` is reached, valid and step-less, and weighs something. */
  predicate Charged(row: Row, members: seq<nat>, i: nat, w: nat, o: Oracle, ws: Weights) {
    && i < |members| && (forall l :: 0 <= l <= i ==> o.resolves(w, members[l]))
    && NeedsStep(row.nodes, members[i], w, o) && RiskWeight(ws, row.nodes[members[i]].contract.risk) > 0
  }

  /** A member that does not resolve comes after a valid, step-less member of positive weight. */
  predicate Overcharges(row: Row, members: seq<nat>, w: nat, o: Oracle, ws: Weights) {
    exists i, j :: 0 <= i < j < |members| && Charged(row, members, i, w, o, ws) && !o.resolves(w, members[j])
  }

  lemma {:induction false} RiskOfPositiveIff(nodes: seq<Node>, ns: seq<nat>, ws: Weights)
    ensures RiskOf(nodes, ns, ws) > 0 <==> exists n :: n in ns && NodeRisk(nodes, n, ws) > 0
  {
    if ns != [] {
      var init, last := ns[..|ns| - 1], ns[|ns| - 1];
      assert last in ns && forall n :: n in ns <==> n in init || n == last;
      RiskOfPositiveIff(nodes, init, ws);
    }
  }

  lemma {:induction false} NewlyJournaledMembers(nodes: seq<Node>, members: seq<nat>, w: nat, o: Oracle, n: nat)
    ensures n in NewlyJournaled(nodes, members, w, o) <==>
      exists i :: 0 <= i < |members| && members[i] == n && NeedsStep(nodes, n, w, o)
                  && forall l :: 0 <= l <= i ==> o.resolves(w, members[l])
  {
    if members != [] && o.resolves(w, members[0]) {
      var rest := members[1..];
      NewlyJournaledMembers(nodes, rest, w, o, n);
      if i :| 0 <= i < |rest| && rest[i] == n && NeedsStep(nodes, n, w, o) &&
              forall l :: 0 <= l <= i ==> o.resolves(w, rest[l])
      {
        assert members[i + 1] == n;
        forall l | 0 <= l <= i + 1 ensures o.resolves(w, members[l]) { if l > 0 { assert members[l] == rest[l - 1]; } }
      }
      if i :| 0 < i < |members| && members[i] == n && NeedsStep(nodes, n, w, o) &&
              forall l :: 0 <= l <= i ==> o.resolves(w, members[l])
      {
        assert rest[i - 1] == n;
        forall l | 0 <= l <= i - 1 ensures o.resolves(w, rest[l]) { assert rest[l] == members[l + 1]; }
      }
    }
  }

  /** The guard decides: a wave charges something on top exactly when it overcharges. */
  lemma ExcessIffOvercharges(row: Row, members: seq<nat>, w: nat, o: Oracle, ws: Weights)
    ensures WaveExcess(row, members, w, o, ws) > 0 <==> Overcharges(row, members, w, o, ws)
  {
    var ns := NewlyJournaled(row.nodes, members, w, o);
    RiskOfPositiveIff(row.nodes, ns, ws);
    if WaveExcess(row, members, w, o, ws) > 0 {
      var n :| n in ns && NodeRisk(row.nodes, n, ws) > 0;
      NewlyJournaledMembers(row.nodes, members, w, o, n);
      var i :| 0 <= i < |members| && members[i] == n && forall l :: 0 <= l <= i ==> o.resolves(w, members[l]);
      var j :| 0 <= j < |members| && !o.resolves(w, members[j]);
      assert Charged(row, members, i, w, o, ws) && i < j;
    }
    if i, j :| 0 <= i < j < |members| && Charged(row, members, i, w, o, ws) && !o.resolves(w, members[j]) {
      NewlyJournaledMembers(row.nodes, members, w, o, members[i]);
      assert NodeRisk(row.nodes, members[i], ws) > 0;
    }
  }

  function ExcessAt(v: Turn, maxParallel: int, o: Oracle, ws: Weights): nat {
    if maxParallel >= 1 && v.budget >= 1 then WaveExcess(v.row, Chosen(v.row, maxParallel, v.budget), v.w, o, ws) else 0
  }

  predicate OverchargesAt(v: Turn, maxParallel: int, o: Oracle, ws: Weights) {
    maxParallel >= 1 && v.budget >= 1 && Overcharges(v.row, Chosen(v.row, maxParallel, v.budget), v.w, o, ws)
  }

  function TotalExcess(vs: seq<Turn>, maxParallel: int, o: Oracle, ws: Weights): nat {
    if vs == [] then 0 else ExcessAt(vs[0], maxParallel, o, ws) + TotalExcess(vs[1..], maxParallel, o, ws)
  }

  lemma ExcessAtIff(v: Turn, maxParallel: int, o: Oracle, ws: Weights)
    ensures ExcessAt(v, maxParallel, o, ws) > 0 <==> OverchargesAt(v, maxParallel, o, ws)
  {
    if maxParallel >= 1 && v.budget >= 1 {
      ExcessIffOvercharges(v.row, Chosen(v.row, maxParallel, v.budget), v.w, o, ws);
    }
  }

  lemma {:induction false} TotalExcessZeroIff(vs: seq<Turn>, maxParallel: int, o: Oracle, ws: Weights)
    ensures TotalExcess(vs, maxParallel, o, ws) == 0 <==> forall v :: v in vs ==> !OverchargesAt(v, maxParallel, o, ws)
  {
    if vs != [] {
      TotalExcessZeroIff(vs[1..], maxParallel, o, ws);
      ExcessAtIff(vs[0], maxParallel, o, ws);
      assert vs == [vs[0]] + vs[1..];
    }
  }

  ghost predicate WaveAccounts(v: Turn, wave: Wave, maxParallel: int, o: Oracle, ws: Weights) {
    var after := RunRow(v.row, wave.events);
    && |after.nodes| == |v.row.nodes|
    && (wave.verdict.Continued? ==> Runs(after))
    && PlanOk(after.nodes, |after.steps|)
    && RiskUnits(after, ws) == RiskUnits(v.row, ws) + ExcessAt(v, maxParallel, o, ws)
  }

  lemma WaveAccountsFor(v: Turn, maxParallel: int, o: Oracle, ws: Weights)
    requires Runs(v.row) && maxParallel >= 1 && v.budget >= 1
    ensures WaveAccounts(v, RunWave(v.row, maxParallel, v.budget, v.w, o), maxParallel, o, ws)
  {
    var row, members := v.row, Chosen(v.row, maxParallel, v.budget);
    var wave := RunWave(row, maxParallel, v.budget, v.w, o);
    var after := RunRow(row, wave.events);
    BareGood(row);
    WaveSafe(Bare(row), maxParallel, v.budget, v.w, o);
    WaveCharge(row, maxParallel, v.budget, v.w, o);
    WaveShape(row, maxParallel, v.budget, v.w, o);
    if wave.verdict.Aborted? {
      AbortedAccounts(row, after, ws);
      StepsForRisk(after.steps[|row.steps|..], row.nodes, NewlyJournaled(row.nodes, members, v.w, o), ws);
    } else {
      ChargedAlikeSameRisk(row, after, ws);
    }
  }

  lemma {:induction false} StepsForRisk(more: seq<Step>, nodes: seq<Node>, ns: seq<nat>, ws: Weights)
    requires |more| == |ns|
    requires forall j :: 0 <= j < |ns| ==> ns[j] < |nodes| && more[j].contract == nodes[ns[j]].contract
    ensures StepsRisk(more, ws) == RiskOf(nodes, ns, ws)
  {
    if ns != [] { StepsForRisk(more[..|ns| - 1], nodes, ns[..|ns| - 1], ws); }
  }

  lemma AbortedAccounts(row: Row, after: Row, ws: Weights)
    requires PlanOk(row.nodes, |row.steps|) && after.nodes == row.nodes && |row.steps| <= |after.steps|
    requires forall k :: 0 <= k < |row.steps| ==> row.steps[k].contract == after.steps[k].contract
    ensures RiskUnits(after, ws) == RiskUnits(row, ws) + StepsRisk(after.steps[|row.steps|..], ws)
  {
    var more := after.steps[|row.steps|..];
    OrphansAdd(row.nodes, row.steps, more, ws);
    ContractsSameRisk(row.nodes, row.steps + more, after.steps, ws);
  }

  lemma {:induction false} ContractsSameRisk(nodes: seq<Node>, a: seq<Step>, b: seq<Step>, ws: Weights)
    requires |a| == |b| && forall k :: 0 <= k < |a| ==> a[k].contract == b[k].contract
    ensures UnlinkedRisk(nodes, a, ws) == UnlinkedRisk(nodes, b, ws)
  {
    if a != [] { ContractsSameRisk(nodes, a[..|a| - 1], b[..|b| - 1], ws); }
  }

  ghost predicate Accounts(f: Waves, maxParallel: int, o: Oracle, ws: Weights) {
    forall row: Row, budget: int, w: nat
      {:trigger WaveAccounts(Turn(row, budget, w), f(row, budget, w), maxParallel, o, ws)} ::
      Runs(row) && budget >= 1 ==> WaveAccounts(Turn(row, budget, w), f(row, budget, w), maxParallel, o, ws)
  }

  ghost predicate LoopAccounted(f: Waves, row: Row, budget: int, w: nat, maxParallel: int, o: Oracle, ws: Weights) {
    var after := RunRow(row, Loop(f, row, budget, w));
    && |after.nodes| == |row.nodes| && PlanOk(after.nodes, |after.steps|)
    && RiskUnits(after, ws) == RiskUnits(row, ws) + TotalExcess(Turns(f, row, budget, w), maxParallel, o, ws)
  }

  /** One turn of the loop: what it runs, and the wave it visits. */
  lemma TurnUnfolds(f: Waves, row: Row, budget: int, w: nat)
    requires budget > 0
    ensures var wave := f(row, budget, w);
      var after := RunRow(row, wave.events);
      if wave.verdict.Continued? && |wave.prepared| > 0 then
        && Turns(f, row, budget, w) == [Turn(row, budget, w)] + Turns(f, after, budget - |wave.prepared|, w + 1)
        && RunRow(row, Loop(f, row, budget, w)) == RunRow(after, Loop(f, after, budget - |wave.prepared|, w + 1))
      else
        && Turns(f, row, budget, w) == [Turn(row, budget, w)]
        && RunRow(row, Loop(f, row, budget, w)) == after
  {
    var wave := f(row, budget, w);
    if wave.verdict.Continued? && |wave.prepared| > 0 {
      RowAppends(row, wave.events, Loop(f, RunRow(row, wave.events), budget - |wave.prepared|, w + 1));
    }
  }

  lemma TotalExcessCons(v: Turn, vs: seq<Turn>, maxParallel: int, o: Oracle, ws: Weights)
    ensures TotalExcess([v] + vs, maxParallel, o, ws)
         == ExcessAt(v, maxParallel, o, ws) + TotalExcess(vs, maxParallel, o, ws)
  {
    assert ([v] + vs)[1..] == vs;
  }

  /** A wave that continues, and a loop accounted for from there. */
  lemma TurnAccounted(f: Waves, row: Row, budget: int, w: nat, maxParallel: int, o: Oracle, ws: Weights)
    requires budget > 0 && WaveAccounts(Turn(row, budget, w), f(row, budget, w), maxParallel, o, ws)
    requires var wave := f(row, budget, w);
      wave.verdict.Continued? && |wave.prepared| > 0 &&
      LoopAccounted(f, RunRow(row, wave.events), budget - |wave.prepared|, w + 1, maxParallel, o, ws)
    ensures LoopAccounted(f, row, budget, w, maxParallel, o, ws)
  {
    var wave := f(row, budget, w);
    var rest := Turns(f, RunRow(row, wave.events), budget - |wave.prepared|, w + 1);
    TurnUnfolds(f, row, budget, w);
    TotalExcessCons(Turn(row, budget, w), rest, maxParallel, o, ws);
  }

  lemma LastTurnAccounted(f: Waves, row: Row, budget: int, w: nat, maxParallel: int, o: Oracle, ws: Weights)
    requires budget > 0 && WaveAccounts(Turn(row, budget, w), f(row, budget, w), maxParallel, o, ws)
    requires var wave := f(row, budget, w); !(wave.verdict.Continued? && |wave.prepared| > 0)
    ensures LoopAccounted(f, row, budget, w, maxParallel, o, ws)
  {
    TurnUnfolds(f, row, budget, w);
    TotalExcessCons(Turn(row, budget, w), [], maxParallel, o, ws);
  }

  lemma {:induction false} LoopAccounts(f: Waves, row: Row, budget: int, w: nat, maxParallel: int, o: Oracle,
                                        ws: Weights)
    requires Accounts(f, maxParallel, o, ws) && Runs(row)
    ensures LoopAccounted(f, row, budget, w, maxParallel, o, ws)
    decreases budget
  {
    if budget > 0 {
      var wave := f(row, budget, w);
      assert WaveAccounts(Turn(row, budget, w), f(row, budget, w), maxParallel, o, ws);
      if wave.verdict.Continued? && |wave.prepared| > 0 {
        LoopAccounts(f, RunRow(row, wave.events), budget - |wave.prepared|, w + 1, maxParallel, o, ws);
        TurnAccounted(f, row, budget, w, maxParallel, o, ws);
      } else {
        LastTurnAccounted(f, row, budget, w, maxParallel, o, ws);
      }
    }
  }

  /** The amount: a run charges on top exactly what the waves it reaches charge on top. */
  lemma RunChargesExcess(row: Row, maxParallel: int, maxSteps: int, o: Oracle, ws: Weights)
    requires PlanOk(row.nodes, |row.steps|)
    ensures var after := RunRow(row, RunProgram(row, maxParallel, maxSteps, o));
      && |after.nodes| == |row.nodes| && PlanOk(after.nodes, |after.steps|)
      && RiskUnits(after, ws)
         == RiskUnits(row, ws) + TotalExcess(TurnsOf(row, maxParallel, maxSteps, o), maxParallel, o, ws)
  {
    if RunAllowed(row, maxParallel, maxSteps) {
      var f := WavesOf(maxParallel, o);
      forall r: Row, budget: int, w: nat | Runs(r) && budget >= 1
        ensures WaveAccounts(Turn(r, budget, w), f(r, budget, w), maxParallel, o, ws)
      {
        WaveAccountsFor(Turn(r, budget, w), maxParallel, o, ws);
      }
      LoopAccounts(f, row, maxSteps, 0, maxParallel, o, ws);
    }
  }

  /** A run conserves the risk units if and only if no wave it reaches has a member that does not
      resolve after a valid, step-less member of positive weight. */
  lemma RunConservesRiskIff(row: Row, maxParallel: int, maxSteps: int, o: Oracle, ws: Weights)
    requires PlanOk(row.nodes, |row.steps|)
    ensures RiskUnits(RunRow(row, RunProgram(row, maxParallel, maxSteps, o)), ws) == RiskUnits(row, ws) <==>
      forall v :: v in TurnsOf(row, maxParallel, maxSteps, o) ==> !OverchargesAt(v, maxParallel, o, ws)
  {
    RunChargesExcess(row, maxParallel, maxSteps, o, ws);
    TotalExcessZeroIff(TurnsOf(row, maxParallel, maxSteps, o), maxParallel, o, ws);
  }

  // ---- the other operations ----

  function Ran(row: Row, op: Op, o: Oracle): Row { RunRow(row, Program(op, row, o)) }

  lemma ExecuteCharge(row: Row, contract: Contract, o: Oracle, ws: Weights)
    requires PlanOk(row.nodes, |row.steps|)
    ensures var after := Ran(row, Execute(Some(contract)), o);
      && after.nodes == row.nodes
      && RiskUnits(after, ws) <= RiskUnits(row, ws) + RiskWeight(ws, contract.risk)
  {
    Decisions.ExecuteMeaning(row, Some(contract), o);
    var after := Ran(row, Execute(Some(contract)), o);
    if row.status.Active? {
      var step := after.steps[|row.steps|];
      assert after.steps == row.steps + [step] && step.contract == contract;
      OrphansAdd(row.nodes, row.steps, [step], ws);
      assert [step][..0] == [] && StepsRisk([step], ws) == RiskWeight(ws, contract.risk);
    }
  }

  lemma PlanCharge(row: Row, q: PlanRequest, ws: Weights)
    requires PlanAllowed(row, q) && PlanOk(row.nodes, |row.steps|)
    ensures var after := RunRow(row, PlanProgram(row, q));
      && |after.nodes| == |row.nodes| + 1
      && RiskUnits(after, ws) == RiskUnits(row, ws) + RiskWeight(ws, q.contract.value.risk)
  {
    var nodes := row.nodes + [PlannedNode(q)];
    var mid, after := row.(nodes := nodes), row.(nodes := Refresh(nodes));
    assert RunRow(row, PlanProgram(row, q)) == after by {
      assert RunRow(After(row, SaveNodes(Refresh(nodes))), []) == after;
    }
    RefreshKeepsLinks(nodes);
    SameLinksChargedAlike(mid, after);
    ChargedAlikeSameRisk(mid, after, ws);
    assert nodes[..|row.nodes|] == row.nodes;
    forall k: nat ensures Linked(nodes, k) <==> Linked(row.nodes, k) {
      if Linked(row.nodes, k) {
        var n :| 0 <= n < |row.nodes| && row.nodes[n].stepNo == Some(k);
        assert nodes[n].stepNo == Some(k);
      }
    }
    LinkedSameRisk(nodes, row.nodes, row.steps, ws);
  }

  lemma {:induction false} LinkedSameRisk(a: seq<Node>, b: seq<Node>, steps: seq<Step>, ws: Weights)
    requires forall k: nat :: Linked(a, k) <==> Linked(b, k)
    ensures UnlinkedRisk(a, steps, ws) == UnlinkedRisk(b, steps, ws)
  {
    if steps != [] { LinkedSameRisk(a, b, steps[..|steps| - 1], ws); }
  }

  lemma SavedRow(row: Row, status: SagaStatus, nodes: seq<Node>)
    ensures RunRow(row, [SaveNodes(nodes)]) == row.(nodes := nodes)
    ensures RunRow(row, [SetStatus(status)]) == row.(status := status)
    ensures RunRow(row, [SetStatus(status), SaveNodes(nodes)]) == row.(status := status, nodes := nodes)
  {
    assert RunRow(After(row, SaveNodes(nodes)), []) == row.(nodes := nodes);
    assert RunRow(After(row, SetStatus(status)), []) == row.(status := status);
    var mid := After(row, SetStatus(status));
    assert [SetStatus(status), SaveNodes(nodes)][1..] == [SaveNodes(nodes)];
    assert RunRow(After(mid, SaveNodes(nodes)), []) == row.(status := status, nodes := nodes);
  }

  lemma ApproveCharge(row: Row, n: nat, approved: bool)
    ensures ChargedAlike(row, RunRow(row, ApproveProgram(row, n, approved)))
  {
    var after := RunRow(row, ApproveProgram(row, n, approved));
    if ApprovalPending(row, n) {
      var nodes := row.nodes[n := ApprovedNode(row.nodes[n], approved, row.nodes)];
      SavedRow(row, if approved then Active else RecoveryRequired, nodes);
      assert after.nodes == nodes && after.steps == row.steps;
    }
    SameLinksChargedAlike(row, after);
  }

  lemma RetryCharge(row: Row, n: nat, force: bool)
    ensures ChargedAlike(row, RunRow(row, RetryProgram(row, n, force)))
  {
    var after := RunRow(row, RetryProgram(row, n, force));
    if RetryAllowed(row, n, force) {
      var nodes := row.nodes[n := RetriedNode(row.nodes[n], row.nodes)];
      RefreshKeepsLinks(nodes);
      SavedRow(row, Active, Refresh(nodes));
      assert after == Row(Active, Refresh(nodes), row.steps);
      assert SameLinks(row.nodes, nodes);
    }
    SameLinksChargedAlike(row, after);
  }

  lemma RollbackCharge(row: Row, o: Oracle)
    requires PlanOk(row.nodes, |row.steps|)
    ensures ChargedAlike(row, RunRow(row, RollbackProgram(row, o)))
  {
    var after := RunRow(row, RollbackProgram(row, o));
    if !Terminal(row.status) {
      PassResult(row, o);
      assert SameLinks(row.nodes, after.nodes);
    }
    SameLinksChargedAlike(row, after);
  }

  lemma RecoverCharge(row: Row, o: Oracle)
    requires PlanOk(row.nodes, |row.steps|)
    ensures ChargedAlike(row, RunRow(row, RecoverProgram(row, o)))
  {
    if NeedsOperator(row.nodes) {
      var e := Write(SetSaga(Some(RecoveryRequired), Some(Escalated(row.nodes))));
      var after := row.(status := RecoveryRequired, nodes := Escalated(row.nodes));
      assert RunRow(row, [e]) == after by { assert [e][1..] == [] && RunRow(After(row, e), []) == after; }
      SameLinksChargedAlike(row, after);
    } else {
      RollbackCharge(row, o);
    }
  }

  // ---- governed runs ----

  /** One governed call: the operation, what the world does to it, what the rules would say to it
      within budget, and whether each member of the first wave passes its own decision. */
  datatype Governed = Governed(op: Op, oracle: Oracle, rules: Effect, members: bool)

  function Ruled(budgets: Budgets, r: Request, rules: Effect): Effect {
    if OverBudget(budgets, r) then Deny else rules
  }

  function Prospect(row: Row, moreSteps: int, moreNodes: int, moreRisk: int, granted: bool, ws: Weights): Request {
    Request(map[MaxStepsPerSaga := |row.steps| + moreSteps, MaxPlannedNodes := |row.nodes| + moreNodes,
                MaxRiskUnits := RiskUnits(row, ws) + moreRisk], granted)
  }

  function RunRequest(row: Row, maxParallel: int, maxSteps: int, ws: Weights): Request {
    var r := Prospect(row, Min(Min(|ReadyNodes(row.nodes)|, maxParallel), maxSteps), 0, 0, true, ws);
    r.(amounts := r.amounts[MaxParallel := maxParallel])
  }

  predicate NodeApproved(row: Row, n: nat) {
    n < |row.nodes| && (!row.nodes[n].approvalRequired || row.nodes[n].approval.Approved?)
  }

  /** What the gate lets through to the coordinator, if anything. */
  function Admitted(row: Row, g: Governed, budgets: Budgets, ws: Weights): Option<Op> {
    match g.op
    case Execute(contract) =>
      if contract.Some? &&
         Ruled(budgets, Prospect(row, 1, 0, RiskWeight(ws, contract.value.risk), false, ws), g.rules).Allow?
      then Some(g.op) else None
    case Plan(q) =>
      if q.contract.None? then None
      else
        var granted := q.policyApproval || q.approval == Some(true);
        var effect := Ruled(budgets, Prospect(row, 0, 1, RiskWeight(ws, q.contract.value.risk), granted, ws), g.rules);
        if effect.Deny? then None
        else if effect.RequireApproval? then Some(Plan(q.(approval := Some(true))))
        else Some(g.op)
    case Approve(n, approved) =>
      if !approved || (n < |row.nodes| && !Ruled(budgets, Request(map[], true), g.rules).Deny?)
      then Some(g.op) else None
    case Retry(n, _) =>
      if n >= |row.nodes| then None
      else
        var effect := Ruled(budgets, Request(map[], NodeApproved(row, n)), g.rules);
        if effect.Deny? || (effect.RequireApproval? && !NodeApproved(row, n)) then None else Some(g.op)
    case RunReady(maxParallel, maxSteps) =>
      if Ruled(budgets, RunRequest(row, maxParallel, maxSteps, ws), g.rules).Deny? || !g.members
      then None else Some(g.op)
    case Commit =>
      if Ruled(budgets, Prospect(row, 0, 0, 0, true, ws), g.rules).Deny? then None else Some(g.op)
    case RollBack => Some(g.op)
    case Recover => if IsPending(row) then Some(g.op) else None
  }

  ghost predicate Fits(budgets: Budgets, key: BudgetKey, amount: int) { key in budgets ==> amount <= budgets[key] }

  /** The steps, nodes and risk units a saga would have fit its budgets. */
  ghost predicate FitsAll(row: Row, moreSteps: int, moreNodes: int, moreRisk: int, budgets: Budgets, ws: Weights) {
    && Fits(budgets, MaxStepsPerSaga, |row.steps| + moreSteps)
    && Fits(budgets, MaxPlannedNodes, |row.nodes| + moreNodes)
    && Fits(budgets, MaxRiskUnits, RiskUnits(row, ws) + moreRisk)
  }

  lemma ProspectFits(row: Row, moreSteps: int, moreNodes: int, moreRisk: int, granted: bool, budgets: Budgets,
                     ws: Weights)
    ensures OverBudget(budgets, Prospect(row, moreSteps, moreNodes, moreRisk, granted, ws)) <==>
            !FitsAll(row, moreSteps, moreNodes, moreRisk, budgets, ws)
  {
    OverBudgetMeaning(budgets, Prospect(row, moreSteps, moreNodes, moreRisk, granted, ws));
  }

  /** What passes the gate, and as what. */
  lemma AdmittedMeaning(row: Row, g: Governed, budgets: Budgets, ws: Weights)
    ensures var op := Admitted(row, g, budgets, ws);
      && (op.Some? && op.value != g.op ==>
            g.op.Plan? && g.rules.RequireApproval? && op.value == Plan(g.op.request.(approval := Some(true))))
      && match g.op
         case Execute(contract) =>
           op.Some? <==> contract.Some? && g.rules.Allow? &&
                         FitsAll(row, 1, 0, RiskWeight(ws, contract.value.risk), budgets, ws)
         case Plan(q) =>
           && (op.Some? <==> q.contract.Some? && !g.rules.Deny? &&
                             FitsAll(row, 0, 1, RiskWeight(ws, q.contract.value.risk), budgets, ws))
           && (op.Some? && g.rules.RequireApproval? ==> op.value.Plan? && op.value.request.approval == Some(true))
         case Approve(n, approved) => op.Some? <==> !approved || (n < |row.nodes| && !g.rules.Deny?)
         case Retry(n, _) =>
           op.Some? <==>
             n < |row.nodes| &&
             (g.rules.Allow? ||
              (g.rules.RequireApproval? && (!row.nodes[n].approvalRequired || row.nodes[n].approval.Approved?)))
         case RunReady(maxParallel, maxSteps) =>
           op.Some? <==> !g.rules.Deny? && g.members && Fits(budgets, MaxParallel, maxParallel) &&
                         FitsAll(row, Min(Min(|ReadyNodes(row.nodes)|, maxParallel), maxSteps), 0, 0, budgets, ws)
         case Commit => op.Some? <==> !g.rules.Deny? && FitsAll(row, 0, 0, 0, budgets, ws)
         case RollBack => op.Some?
         case Recover => op.Some? <==> AwaitsRecovery(row)
  {
    match g.op
    case Execute(contract) =>
      if contract.Some? { ProspectFits(row, 1, 0, RiskWeight(ws, contract.value.risk), false, budgets, ws); }
    case Plan(q) =>
      if q.contract.Some? {
        var granted := q.policyApproval || q.approval == Some(true);
        ProspectFits(row, 0, 1, RiskWeight(ws, q.contract.value.risk), granted, budgets, ws);
      }
    case RunReady(maxParallel, maxSteps) =>
      OverBudgetMeaning(budgets, RunRequest(row, maxParallel, maxSteps, ws));
      RunFits(row, maxParallel, maxSteps, budgets, ws);
    case Commit => ProspectFits(row, 0, 0, 0, true, budgets, ws);
    case _ =>
  }

  lemma RunFits(row: Row, maxParallel: int, maxSteps: int, budgets: Budgets, ws: Weights)
    ensures !OverBudget(budgets, RunRequest(row, maxParallel, maxSteps, ws)) <==>
      && Fits(budgets, MaxParallel, maxParallel)
      && FitsAll(row, Min(Min(|ReadyNodes(row.nodes)|, maxParallel), maxSteps), 0, 0, budgets, ws)
  {
  }

  function GovernedRow(row: Row, g: Governed, budgets: Budgets, ws: Weights): Row {
    var op := Admitted(row, g, budgets, ws);
    if op.Some? then Ran(row, op.value, g.oracle) else row
  }

  /** Risk units one governed call adds outside every gate. */
  function CallExcess(row: Row, g: Governed, budgets: Budgets, ws: Weights): nat {
    match Admitted(row, g, budgets, ws)
    case Some(RunReady(maxParallel, maxSteps)) =>
      TotalExcess(TurnsOf(row, maxParallel, maxSteps, g.oracle), maxParallel, g.oracle, ws)
    case _ => 0
  }

  function NewSaga(): Row { Row(Active, [], []) }

  /** A sequential, crash-free run under one fixed policy. */
  function GovernedRun(gs: seq<Governed>, budgets: Budgets, ws: Weights): Row {
    if gs == [] then NewSaga() else GovernedRow(GovernedRun(gs[..|gs| - 1], budgets, ws), gs[|gs| - 1], budgets, ws)
  }

  function RunExcess(gs: seq<Governed>, budgets: Budgets, ws: Weights): nat {
    if gs == [] then 0
    else
      RunExcess(gs[..|gs| - 1], budgets, ws)
      + CallExcess(GovernedRun(gs[..|gs| - 1], budgets, ws), gs[|gs| - 1], budgets, ws)
  }

  ghost predicate Within(row: Row, budgets: Budgets, excess: nat, ws: Weights) {
    && (MaxPlannedNodes in budgets ==> |row.nodes| <= budgets[MaxPlannedNodes])
    && (MaxRiskUnits in budgets ==> RiskUnits(row, ws) <= budgets[MaxRiskUnits] + excess)
  }

  lemma AlikeWithin(a: Row, b: Row, budgets: Budgets, excess: nat, ws: Weights)
    requires ChargedAlike(a, b) && Within(a, budgets, excess, ws)
    ensures Within(b, budgets, excess, ws)
  {
    ChargedAlikeSameRisk(a, b, ws);
  }

  lemma StaysGood(row: Row, op: Op, o: Oracle)
    requires Good(Bare(row)) && (op.Recover? ==> !Terminal(row.status))
    ensures Good(Bare(Ran(row, op, o)))
  {
    ProgramSafe(Bare(row), op, o);
    SafeEnd(Bare(row), Program(op, row, o));
    RowOfBook(Bare(row), Program(op, row, o));
  }

  lemma ExecuteWithin(row: Row, g: Governed, budgets: Budgets, excess: nat, ws: Weights)
    requires PlanOk(row.nodes, |row.steps|) && Within(row, budgets, excess, ws)
    requires g.op.Execute? && Admitted(row, g, budgets, ws).Some?
    ensures Within(Ran(row, g.op, g.oracle), budgets, excess, ws)
  {
    var weight := RiskWeight(ws, g.op.contract.value.risk);
    assert !Exceeds(budgets, Prospect(row, 1, 0, weight, false, ws), MaxRiskUnits);
    ExecuteCharge(row, g.op.contract.value, g.oracle, ws);
  }

  lemma PlanWithin(row: Row, g: Governed, q: PlanRequest, budgets: Budgets, excess: nat, ws: Weights)
    requires PlanOk(row.nodes, |row.steps|) && Within(row, budgets, excess, ws)
    requires g.op.Plan? && Admitted(row, g, budgets, ws) == Some(Plan(q))
    ensures Within(RunRow(row, PlanProgram(row, q)), budgets, excess, ws)
  {
    if PlanAllowed(row, q) {
      var asked := g.op.request;
      var granted := asked.policyApproval || asked.approval == Some(true);
      var r := Prospect(row, 0, 1, RiskWeight(ws, q.contract.value.risk), granted, ws);
      assert !Exceeds(budgets, r, MaxRiskUnits) && !Exceeds(budgets, r, MaxPlannedNodes);
      PlanCharge(row, q, ws);
    }
  }

  /** Every other operation but a run is charged alike. */
  lemma OtherChargedAlike(row: Row, op: Op, o: Oracle)
    requires PlanOk(row.nodes, |row.steps|) && !op.Execute? && !op.Plan? && !op.RunReady?
    ensures ChargedAlike(row, Ran(row, op, o))
  {
    match op
    case Approve(n, approved) => ApproveCharge(row, n, approved);
    case Retry(n, force) => RetryCharge(row, n, force);
    case Commit =>
      SavedRow(row, Committed, row.nodes);
      SameLinksChargedAlike(row, Ran(row, op, o));
    case RollBack => RollbackCharge(row, o);
    case Recover => RecoverCharge(row, o);
    case _ =>
  }

  lemma AdmittedOp(row: Row, g: Governed, budgets: Budgets, ws: Weights)
    ensures var op := Admitted(row, g, budgets, ws);
      op.Some? ==> (op.value == g.op || (g.op.Plan? && op.value.Plan?)) && (op.value.Recover? ==> IsPending(row))
  {
  }

  lemma GovernedStepWithin(row: Row, g: Governed, budgets: Budgets, excess: nat, ws: Weights)
    requires Good(Bare(row)) && Within(row, budgets, excess, ws)
    ensures Within(GovernedRow(row, g, budgets, ws), budgets, excess + CallExcess(row, g, budgets, ws), ws)
  {
    var admitted := Admitted(row, g, budgets, ws);
    if admitted.Some? {
      var op := admitted.value;
      AdmittedOp(row, g, budgets, ws);
      if op.Execute? {
        ExecuteWithin(row, g, budgets, excess, ws);
      } else if op.Plan? {
        PlanWithin(row, g, op.request, budgets, excess, ws);
      } else if op.RunReady? {
        RunChargesExcess(row, op.maxParallel, op.maxSteps, g.oracle, ws);
      } else {
        OtherChargedAlike(row, op, g.oracle);
        AlikeWithin(row, Ran(row, op, g.oracle), budgets, excess, ws);
      }
    }
  }

  lemma GovernedStepGood(row: Row, g: Governed, budgets: Budgets, ws: Weights)
    requires Good(Bare(row))
    ensures Good(Bare(GovernedRow(row, g, budgets, ws)))
  {
    var admitted := Admitted(row, g, budgets, ws);
    if admitted.Some? {
      AdmittedOp(row, g, budgets, ws);
      StaysGood(row, admitted.value, g.oracle);
    }
  }

  /** In every governed run, whatever the rules say, the planned nodes stay within budget, and the
      risk units exceed theirs by no more than its aborted waves charged on top. */
  lemma {:induction false} BudgetsHold(gs: seq<Governed>, budgets: Budgets, ws: Weights)
    ensures Good(Bare(GovernedRun(gs, budgets, ws)))
    ensures Within(GovernedRun(gs, budgets, ws), budgets, RunExcess(gs, budgets, ws), ws)
  {
    if gs != [] {
      var before := gs[..|gs| - 1];
      BudgetsHold(before, budgets, ws);
      GovernedStepGood(GovernedRun(before, budgets, ws), gs[|gs| - 1], budgets, ws);
      GovernedStepWithin(GovernedRun(before, budgets, ws), gs[|gs| - 1], budgets, RunExcess(before, budgets, ws), ws);
    }
  }

  // ---- when the budget is exact ----

  /** The call runs, and a wave it reaches overcharges. */
  ghost predicate CallOvercharges(row: Row, g: Governed, budgets: Budgets, ws: Weights) {
    match Admitted(row, g, budgets, ws)
    case Some(RunReady(maxParallel, maxSteps)) =>
      exists v :: v in TurnsOf(row, maxParallel, maxSteps, g.oracle) && OverchargesAt(v, maxParallel, g.oracle, ws)
    case _ => false
  }

  lemma CallExcessZeroIff(row: Row, g: Governed, budgets: Budgets, ws: Weights)
    ensures CallExcess(row, g, budgets, ws) == 0 <==> !CallOvercharges(row, g, budgets, ws)
  {
    match Admitted(row, g, budgets, ws)
    case Some(RunReady(maxParallel, maxSteps)) =>
      TotalExcessZeroIff(TurnsOf(row, maxParallel, maxSteps, g.oracle), maxParallel, g.oracle, ws);
    case _ =>
  }

  ghost predicate OverchargesIn(gs: seq<Governed>, i: nat, budgets: Budgets, ws: Weights)
    requires i < |gs|
  {
    CallOvercharges(GovernedRun(gs[..i], budgets, ws), gs[i], budgets, ws)
  }

  ghost predicate NoneOvercharges(gs: seq<Governed>, budgets: Budgets, ws: Weights) {
    forall i :: 0 <= i < |gs| ==> !OverchargesIn(gs, i, budgets, ws)
  }

  lemma NoneOverchargesSnoc(gs: seq<Governed>, g: Governed, budgets: Budgets, ws: Weights)
    ensures NoneOvercharges(gs + [g], budgets, ws) <==>
            NoneOvercharges(gs, budgets, ws) && !CallOvercharges(GovernedRun(gs, budgets, ws), g, budgets, ws)
  {
    forall i | 0 <= i < |gs| ensures OverchargesIn(gs + [g], i, budgets, ws) == OverchargesIn(gs, i, budgets, ws) {
      assert (gs + [g])[..i] == gs[..i];
    }
    assert (gs + [g])[..|gs|] == gs;
    assert OverchargesIn(gs + [g], |gs|, budgets, ws) == CallOvercharges(GovernedRun(gs, budgets, ws), g, budgets, ws);
  }

  lemma RunExcessSnoc(gs: seq<Governed>, g: Governed, budgets: Budgets, ws: Weights)
    ensures RunExcess(gs + [g], budgets, ws)
         == RunExcess(gs, budgets, ws) + CallExcess(GovernedRun(gs, budgets, ws), g, budgets, ws)
  {
    assert (gs + [g])[..|gs|] == gs;
  }

  /** Nothing is charged on top in a governed run exactly when none of its calls overcharges. */
  lemma {:induction false} RunExcessZeroIff(gs: seq<Governed>, budgets: Budgets, ws: Weights)
    ensures RunExcess(gs, budgets, ws) == 0 <==> NoneOvercharges(gs, budgets, ws)
  {
    if gs != [] {
      var before, g := gs[..|gs| - 1], gs[|gs| - 1];
      RunExcessZeroIff(before, budgets, ws);
      assert gs == before + [g];
      ExcessZeroSnoc(before, g, GovernedRun(before, budgets, ws), budgets, ws);
    }
  }

  lemma ExcessZeroSnoc(gs: seq<Governed>, g: Governed, row: Row, budgets: Budgets, ws: Weights)
    requires RunExcess(gs, budgets, ws) == 0 <==> NoneOvercharges(gs, budgets, ws)
    requires row == GovernedRun(gs, budgets, ws)
    ensures RunExcess(gs + [g], budgets, ws) == 0 <==> NoneOvercharges(gs + [g], budgets, ws)
  {
    RunExcessSnoc(gs, g, budgets, ws);
    NoneOverchargesSnoc(gs, g, budgets, ws);
    CallExcessZeroIff(row, g, budgets, ws);
  }

  /** Both budgets hold in every governed run whose reached waves have no member that does not resolve
      after a valid, step-less member of positive weight. */
  lemma WithinBudgetUnlessOvercharged(gs: seq<Governed>, budgets: Budgets, ws: Weights)
    requires NoneOvercharges(gs, budgets, ws)
    ensures Within(GovernedRun(gs, budgets, ws), budgets, 0, ws)
  {
    BudgetsHold(gs, budgets, ws);
    RunExcessZeroIff(gs, budgets, ws);
  }

  ghost predicate AllResolve(gs: seq<Governed>) {
    forall i :: 0 <= i < |gs| ==> forall w: nat, n: nat :: gs[i].oracle.resolves(w, n)
  }

  /** In particular as long as every contract resolves. */
  lemma ResolvedRunsStayWithinBudget(gs: seq<Governed>, budgets: Budgets, ws: Weights)
    requires AllResolve(gs)
    ensures Within(GovernedRun(gs, budgets, ws), budgets, 0, ws)
  {
    forall i | 0 <= i < |gs| ensures !OverchargesIn(gs, i, budgets, ws) {}
    WithinBudgetUnlessOvercharged(gs, budgets, ws);
  }

  /** Two ready nodes of weight three: the first is journaled, then the contract of the second does not
      resolve. */
  lemma AbortExcess(row: Row, o: Oracle, maxParallel: int, maxSteps: int)
    requires Stocked(row, 2) && o.resolves(0, 0) && o.valid(0, 0) && !o.resolves(0, 1)
    requires 2 <= maxParallel <= 32 && 2 <= maxSteps <= 1000
    ensures TotalExcess(TurnsOf(row, maxParallel, maxSteps, o), maxParallel, o, THREE_EACH) == 3
  {
    var nodes, v := Refresh(row.nodes), Turn(row, maxSteps, 0);
    RefreshPartial(row.nodes, row.nodes, Upto(2));
    assert PartialAt(row.nodes, nodes, 0) && PartialAt(row.nodes, nodes, 1);
    assert nodes == row.nodes;
    TwoReady(nodes);
    var members := Chosen(row, maxParallel, maxSteps);
    assert members == [0, 1];
    WaveShape(row, maxParallel, maxSteps, 0, o);
    assert members[1] == 1 && SomeUnresolved(members, 0, o);
    assert TurnsOf(row, maxParallel, maxSteps, o) == [v];
    assert members[1..] == [1] && NewlyJournaled(row.nodes, [1], 0, o) == [];
    assert NewlyJournaled(row.nodes, members, 0, o) == [0];
    assert [0][..0] == [] && RiskOf(row.nodes, [0], THREE_EACH) == 3;
    assert [v][1..] == [];
  }

  lemma TwoReady(nodes: seq<Node>)
    requires |nodes| == 2 && nodes[0].status.Ready? && nodes[1].status.Ready?
    ensures ReadyNodes(nodes) == [0, 1]
  {
    assert nodes[..1][..0] == [];
    assert ReadyNodes(nodes[..1]) == [0];
  }

  /** Planning an independent step without approval appends a READY node. */
  lemma PlansReady(row: Row, q: PlanRequest)
    requires PlanAllowed(row, q) && q.deps == [] && !q.policyApproval && q.approval.None?
    requires forall n :: 0 <= n < |row.nodes| ==> row.nodes[n].status.Ready?
    ensures RunRow(row, PlanProgram(row, q)) == row.(nodes := row.nodes + [PlannedNode(q)])
  {
    var nodes := row.nodes + [PlannedNode(q)];
    RefreshPartial(nodes, nodes, Upto(|nodes|));
    forall n | 0 <= n < |nodes| ensures Refresh(nodes)[n] == nodes[n] { assert PartialAt(nodes, Refresh(nodes), n); }
    assert Refresh(nodes) == nodes;
    SavedRow(row, Active, nodes);
  }

  /** A budget of six risk units, every risk weighing three. */
  const SIX: Budgets := map[MaxRiskUnits := 6]
  const THREE_EACH: Weights := map[]

  predicate PlainRequest(q: PlanRequest) {
    && q.contract.Some? && q.contract.value.risk == "" && q.deps == []
    && !q.policyApproval && q.approval.None? && q.key.None?
  }

  /** `n` READY nodes of three risk units each, and no steps. */
  ghost predicate Stocked(row: Row, n: nat) {
    && row.status.Active? && |row.nodes| == n && row.steps == [] && PlanOk(row.nodes, 0)
    && (forall i :: 0 <= i < n ==>
          row.nodes[i].status.Ready? && row.nodes[i].stepNo.None? && row.nodes[i].contract.risk == "")
    && RiskUnits(row, THREE_EACH) == 3 * n
  }

  lemma PlanAdmitted(row: Row, q: PlanRequest, o: Oracle)
    requires PlainRequest(q) && RiskUnits(row, THREE_EACH) <= 3
    ensures var g := Governed(Plan(q), o, Allow, true); Admitted(row, g, SIX, THREE_EACH) == Some(g.op)
    ensures RiskWeight(THREE_EACH, "") == 3
  {
    assert !OverBudget(SIX, Prospect(row, 0, 1, 3, false, THREE_EACH));
  }

  lemma PlanKeepsPlanOk(row: Row, q: PlanRequest, o: Oracle)
    requires row.status.Active? && PlanOk(row.nodes, |row.steps|)
    ensures PlanOk(Ran(row, Plan(q), o).nodes, |Ran(row, Plan(q), o).steps|)
  {
    BareGood(row);
    StaysGood(row, Plan(q), o);
  }

  lemma StocksAppend(row: Row, node: Node, n: nat)
    requires Stocked(row, n) && node.status.Ready? && node.stepNo.None? && node.contract.risk == ""
    requires PlanOk(row.nodes + [node], 0) && RiskUnits(row.(nodes := row.nodes + [node]), THREE_EACH) == 3 * n + 3
    ensures Stocked(row.(nodes := row.nodes + [node]), n + 1)
  {
  }

  lemma PlanStocks(row: Row, q: PlanRequest, o: Oracle, n: nat)
    requires Stocked(row, n) && PlainRequest(q)
    ensures Stocked(Ran(row, Plan(q), o), n + 1)
  {
    PlansReady(row, q);
    assert Ran(row, Plan(q), o) == row.(nodes := row.nodes + [PlannedNode(q)]);
    assert PlanOk(row.nodes + [PlannedNode(q)], 0) by { PlanKeepsPlanOk(row, q, o); }
    assert RiskUnits(row.(nodes := row.nodes + [PlannedNode(q)]), THREE_EACH) == 3 * n + 3 by {
      PlanCharge(row, q, THREE_EACH);
      assert RiskWeight(THREE_EACH, "") == 3;
    }
    StocksAppend(row, PlannedNode(q), n);
  }

  lemma AdmittedPlan(row: Row, q: PlanRequest, o: Oracle, n: nat)
    requires Stocked(row, n) && n <= 1 && PlainRequest(q)
    ensures Stocked(GovernedRow(row, Governed(Plan(q), o, Allow, true), SIX, THREE_EACH), n + 1)
  {
    var g := Governed(Plan(q), o, Allow, true);
    PlanAdmitted(row, q, o);
    PlanStocks(row, q, o, n);
  }

  lemma RunAdmitted(row: Row, o: Oracle)
    requires RiskUnits(row, THREE_EACH) <= 6
    ensures var g := Governed(RunReady(4, 100), o, Allow, true); Admitted(row, g, SIX, THREE_EACH) == Some(g.op)
  {
    assert !OverBudget(SIX, RunRequest(row, 4, 100, THREE_EACH));
  }

  lemma AdmittedAbort(row: Row, o: Oracle, g: Governed)
    requires Stocked(row, 2) && o.resolves(0, 0) && o.valid(0, 0) && !o.resolves(0, 1)
    requires g == Governed(RunReady(4, 100), o, Allow, true)
    ensures RiskUnits(GovernedRow(row, g, SIX, THREE_EACH), THREE_EACH) == 9
  {
    RunChargesExcess(row, g.op.maxParallel, g.op.maxSteps, o, THREE_EACH);
    AbortExcess(row, o, g.op.maxParallel, g.op.maxSteps);
    RunAdmitted(row, o);
  }

  lemma GovernedSnoc(gs: seq<Governed>, g: Governed, budgets: Budgets, ws: Weights)
    ensures GovernedRun(gs + [g], budgets, ws) == GovernedRow(GovernedRun(gs, budgets, ws), g, budgets, ws)
  {
    assert (gs + [g])[..|gs|] == gs;
  }

  lemma EmptyIsStocked(row: Row)
    requires row.status.Active? && row.nodes == [] && row.steps == []
    ensures Stocked(row, 0)
  {
  }

  /** With an unresolvable contract the risk budget can be overrun: two steps planned up to a budget
      of six, then one wave that journals the first and aborts at the second. */
  lemma AbortedWaveOverspends(q: PlanRequest, o: Oracle, gs: seq<Governed>)
    requires PlainRequest(q) && o.resolves(0, 0) && o.valid(0, 0) && !o.resolves(0, 1)
    requires var plan, run := Governed(Plan(q), o, Allow, true), Governed(RunReady(4, 100), o, Allow, true);
      gs == [plan, plan, run]
    ensures RiskUnits(GovernedRun(gs, SIX, THREE_EACH), THREE_EACH) == 9
  {
    var plan, run := gs[0], gs[2];
    EmptyIsStocked(NewSaga());
    AdmittedPlan(NewSaga(), q, o, 0);
    RunOfOne(plan, SIX, THREE_EACH);
    AdmittedPlan(GovernedRun([plan], SIX, THREE_EACH), q, o, 1);
    GovernedSnoc([plan], plan, SIX, THREE_EACH);
    AdmittedAbort(GovernedRun([plan] + [plan], SIX, THREE_EACH), o, run);
    GovernedSnoc([plan] + [plan], run, SIX, THREE_EACH);
    assert gs == [plan] + [plan] + [run];
  }

  lemma RunOfOne(g: Governed, budgets: Budgets, ws: Weights)
    ensures GovernedRun([g], budgets, ws) == GovernedRow(NewSaga(), g, budgets, ws)
  {
    GovernedSnoc([], g, budgets, ws);
    assert [] + [g] == [g];
  }
}
