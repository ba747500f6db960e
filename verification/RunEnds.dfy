/** How a call of `run_ready_steps` ends: whom each wave takes, what becomes of its members and their steps,
    and the status of the saga. */
module RunEnds {
  import opened Types
  import opened AbstractStore
  import opened Engine
  import opened Programs
  import opened Ledger
  import opened PlanSafety
  import opened WaveSafety
  import opened RunResults
  import opened Aborts
  import opened CompletedNodes
  import Decisions

  // ---- whom a wave takes ----

  /** The first READY nodes in insertion order, as many as parallelism, budget and the plan allow. */
  ghost predicate FirstReady(nodes: seq<Node>, members: seq<nat>, maxParallel: int, budget: int) {
    && (forall i :: 0 <= i < |members| ==> members[i] < |nodes| && nodes[members[i]].status.Ready?)
    && (forall i, j :: 0 <= i < j < |members| ==> members[i] < members[j])
    && |members| <= maxParallel && |members| <= budget
    && forall n :: 0 <= n < |nodes| && nodes[n].status.Ready? && n !in members ==>
         (|members| == maxParallel || |members| == budget) && forall m :: m in members ==> m < n
  }

  lemma PrefixComesFirst(ready: seq<nat>, k: nat, n: nat)
    requires Ascending(ready) && k <= |ready| && n in ready && n !in ready[..k]
    ensures k < |ready| && forall m :: m in ready[..k] ==> m < n
  {
    var j :| 0 <= j < |ready| && ready[j] == n;
    assert forall i :: 0 <= i < k ==> ready[..k][i] == ready[i] && ready[..k][i] in ready[..k];
    assert k <= j;
  }

  lemma ChosenAreFirst(row: Row, maxParallel: int, budget: int)
    requires maxParallel >= 1 && budget >= 1
    ensures FirstReady(Refresh(row.nodes), Chosen(row, maxParallel, budget), maxParallel, budget)
  {
    var nodes := Refresh(row.nodes);
    var ready, members := ReadyNodes(nodes), Chosen(row, maxParallel, budget);
    ReadyInOrder(nodes);
    forall n | 0 <= n < |nodes| && nodes[n].status.Ready? && n !in members
      ensures (|members| == maxParallel || |members| == budget) && forall m :: m in members ==> m < n
    {
      PrefixComesFirst(ready, |members|, n);
    }
  }

  /** A member whose input is valid is prepared, under its own step; any other is FAILED and has none. */
  ghost predicate MemberPrepared(before: Node, after: Node, prepared: bool, valid: bool) {
    && prepared == valid
    && (if valid then
          && after == before.(status := NodeStatus.Executing, stepNo := after.stepNo)
          && after.stepNo.Some? && (before.stepNo.Some? ==> after.stepNo == before.stepNo)
        else after == before.(status := NodeStatus.Failed))
  }

  lemma {:induction false} PrepareMembers(p: Prep, members: seq<nat>, w: nat, o: Oracle)
    requires Distinct(members) && forall i :: 0 <= i < |members| ==> members[i] < |p.nodes|
    requires !p.aborted && !Prepare(p, members, w, o).aborted
    requires forall i :: 0 <= i < |members| && p.nodes[members[i]].stepNo.Some? ==>
               p.nodes[members[i]].stepNo.value < |p.steps|
    requires forall i :: 0 <= i < |members| ==> members[i] !in p.prepared
    ensures var q := Prepare(p, members, w, o);
      && (forall n :: n in p.prepared ==> n in q.prepared)
      && (forall i :: 0 <= i < |members| ==>
            MemberPrepared(p.nodes[members[i]], q.nodes[members[i]], members[i] in q.prepared, o.valid(w, members[i])))
    decreases |members|
  {
    if members != [] {
      var n, rest, q := members[0], members[1..], PrepareOne(p, members[0], w, o);
      var last := Prepare(q, rest, w, o);
      assert last == Prepare(p, members, w, o);
      assert !q.aborted;
      PrepareMembers(q, rest, w, o);
      PrepareFrame(q, rest, w, o);
      assert n !in rest;
      forall i | 0 <= i < |members|
        ensures MemberPrepared(p.nodes[members[i]], last.nodes[members[i]], members[i] in last.prepared,
                               o.valid(w, members[i]))
      {
        if i > 0 { assert members[i] == rest[i - 1] && q.nodes[members[i]] == p.nodes[members[i]]; }
      }
    }
  }

  // ---- the row a wave leaves ----

  /** The row after a wave, by its verdict. */
  function WaveLeaves(row: Row, p: Prep, verdict: Verdict, w: nat, o: Oracle): Row {
    match verdict
    case Idle => row.(nodes := Refresh(row.nodes))
    case Aborted => row.(steps := p.steps)
    case Stuck => Row(Active, p.nodes, p.steps)
    case WaveFailed =>
      Row(FailureStatus(p.nodes, p.prepared, w, o), DoneNodes(p.nodes, p.prepared, w, o), DoneSteps(p, w, o))
    case Continued => Row(Active, DoneNodes(p.nodes, p.prepared, w, o), DoneSteps(p, w, o))
  }

  lemma WaveRow(row: Row, maxParallel: int, budget: int, w: nat, o: Oracle)
    requires Runs(row) && maxParallel >= 1 && budget >= 1
    ensures var wave, p := RunWave(row, maxParallel, budget, w, o), Prepared(row, maxParallel, budget, w, o);
      RunRow(row, wave.events) == WaveLeaves(row, p, wave.verdict, w, o)
  {
    var wave, p := RunWave(row, maxParallel, budget, w, o), Prepared(row, maxParallel, budget, w, o);
    PreparationHolds(row, maxParallel, budget, w, o);
    match wave.verdict
    case Idle => IdleRow(row, maxParallel, budget, w, o);
    case Aborted => RowOfBook(Bare(row), p.events);
    case Stuck =>
      SavePrepared(Bare(row), p);
      RowOfBook(Bare(row), wave.events);
    case WaveFailed => FailedLeaves(row, p, w, o, FailureStatus(p.nodes, p.prepared, w, o));
    case Continued => ContinuedRow(row, maxParallel, budget, w, o);
  }

  lemma FailedLeaves(row: Row, p: Prep, w: nat, o: Oracle, status: SagaStatus)
    requires PrepOk(Bare(row), p) && p.prepared != []
    ensures var ran := p.events + [SaveNodes(p.nodes)] + Execution(p.nodes, p.prepared, w, o);
      RunRow(row, ran + [SetStatus(status)]) ==
        Row(status, DoneNodes(p.nodes, p.prepared, w, o), DoneSteps(p, w, o))
  {
    var ran := p.events + [SaveNodes(p.nodes)] + Execution(p.nodes, p.prepared, w, o);
    RanSafe(Bare(row), p, w, o);
    RowOfBook(Bare(row), ran);
    RunSnoc(row, ran, SetStatus(status));
  }

  // ---- what becomes of the members ----

  /** A called member ends COMPLETED or FAILED, and so does its step, as its attempts went. */
  ghost predicate MemberEnds(after: Row, n: nat, success: bool) {
    && n < |after.nodes| && after.nodes[n].stepNo.Some? && after.nodes[n].stepNo.value < |after.steps|
    && !after.nodes[n].uncertain
    && after.nodes[n].status == (if success then NodeStatus.Completed else NodeStatus.Failed)
    && after.steps[after.nodes[n].stepNo.value].status == (if success then StepStatus.Completed else StepStatus.Failed)
  }

  /** In a wave that is executed every valid member is called and ends as its attempts went, and every other
      member is FAILED. */
  lemma WaveRecords(row: Row, maxParallel: int, budget: int, w: nat, o: Oracle, n: nat)
    requires Runs(row) && maxParallel >= 1 && budget >= 1 && n in Chosen(row, maxParallel, budget)
    requires RunWave(row, maxParallel, budget, w, o).verdict.Continued? ||
             RunWave(row, maxParallel, budget, w, o).verdict.WaveFailed?
    ensures var wave := RunWave(row, maxParallel, budget, w, o);
      ChosenEnds(row, RunRow(row, wave.events), n, n in wave.prepared, w, o)
  {
    var wave, p := RunWave(row, maxParallel, budget, w, o), Prepared(row, maxParallel, budget, w, o);
    ExecutedRow(row, maxParallel, budget, w, o);
    ChosenPrepared(row, maxParallel, budget, w, o, n);
    if o.valid(w, n) {
      assert PreparedSide(p) && Journaled(p.nodes, |p.steps|) by { PreparationHolds(row, maxParallel, budget, w, o); }
      MemberRecorded(p, RunRow(row, wave.events), w, o, n);
    } else {
      RefusedRecorded(p, RunRow(row, wave.events), w, o, n);
    }
  }

  ghost predicate ChosenEnds(row: Row, after: Row, n: nat, called: bool, w: nat, o: Oracle) {
    && called == o.valid(w, n)
    && (if o.valid(w, n) then MemberEnds(after, n, Decisions.SomeSucceeds(o.member(w, n)))
        else && n < |row.nodes| && n < |after.nodes| && after.nodes[n].status.Failed?
             && after.nodes[n].stepNo == row.nodes[n].stepNo)
  }

  lemma ExecutedRow(row: Row, maxParallel: int, budget: int, w: nat, o: Oracle)
    requires Runs(row) && maxParallel >= 1 && budget >= 1
    requires RunWave(row, maxParallel, budget, w, o).verdict.Continued? ||
             RunWave(row, maxParallel, budget, w, o).verdict.WaveFailed?
    ensures var wave, p := RunWave(row, maxParallel, budget, w, o), Prepared(row, maxParallel, budget, w, o);
      && !p.aborted && wave.prepared == p.prepared
      && RunRow(row, wave.events).nodes == DoneNodes(p.nodes, p.prepared, w, o)
      && RunRow(row, wave.events).steps == DoneSteps(p, w, o)
  {
    WaveRow(row, maxParallel, budget, w, o);
  }

  lemma MemberRecorded(p: Prep, after: Row, w: nat, o: Oracle, n: nat)
    requires PreparedSide(p) && Journaled(p.nodes, |p.steps|) && n in p.prepared
    requires after.nodes == DoneNodes(p.nodes, p.prepared, w, o) && after.steps == DoneSteps(p, w, o)
    ensures MemberEnds(after, n, Decisions.SomeSucceeds(o.member(w, n)))
  {
    MemberStep(p, n);
    ResultRecorded(p, w, o, n);
    TriesMeaning(1, o.member(w, n));
    RefreshClosed(FinishedNodes(p.nodes, p.prepared, w, o), n);
  }

  lemma RefusedRecorded(p: Prep, after: Row, w: nat, o: Oracle, n: nat)
    requires n < |p.nodes| && n !in p.prepared && p.nodes[n].status.Failed?
    requires after.nodes == DoneNodes(p.nodes, p.prepared, w, o)
    ensures n < |after.nodes| && after.nodes[n] == p.nodes[n]
  {
    RefreshClosed(FinishedNodes(p.nodes, p.prepared, w, o), n);
  }

  lemma ChosenPrepared(row: Row, maxParallel: int, budget: int, w: nat, o: Oracle, n: nat)
    requires Runs(row) && maxParallel >= 1 && budget >= 1 && n in Chosen(row, maxParallel, budget)
    requires !Prepared(row, maxParallel, budget, w, o).aborted
    ensures var p := Prepared(row, maxParallel, budget, w, o);
      && n < |row.nodes| == |p.nodes| && (n in p.prepared <==> o.valid(w, n))
      && (!o.valid(w, n) ==> p.nodes[n].status.Failed? && p.nodes[n].stepNo == row.nodes[n].stepNo)
  {
    var nodes, members := Refresh(row.nodes), Chosen(row, maxParallel, budget);
    RefreshKeepsPlan(row.nodes, |row.steps|);
    PrepareMembers(Prep(nodes, row.steps, [], [], false), members, w, o);
    var i :| 0 <= i < |members| && members[i] == n;
    RefreshPartial(row.nodes, row.nodes, Upto(|row.nodes|));
    assert PartialAt(row.nodes, nodes, n);
  }

  // ---- the status of the saga ----

  ghost predicate FailsWith(after: Row, n: nat, mode: bool) {
    && n < |after.nodes| && after.nodes[n].status.Failed?
    && (after.nodes[n].contract.failureMode == Some(Rollback)) == mode
  }

  /** ACTIVE; or FAILED because a started node FAILED whose contract says rollback; or RECOVERY_REQUIRED
      because one FAILED and none of those says so. */
  ghost predicate EndsAs(after: Row, started: seq<nat>) {
    && (after.status.Active? || after.status.Failed? || after.status.RecoveryRequired?)
    && (after.status.Failed? <==> exists n :: n in started && FailsWith(after, n, true))
    && (after.status.RecoveryRequired? <==>
          && (exists n :: n in started && FailsWith(after, n, false))
          && forall n :: n in started ==> !FailsWith(after, n, true))
  }

  ghost predicate SettledKept(before: seq<Node>, after: seq<Node>) {
    |before| == |after| && forall n :: 0 <= n < |before| && Closed(before[n]) ==> after[n] == before[n]
  }

  ghost predicate WaveEnds(row: Row, wave: Wave) {
    var after := RunRow(row, wave.events);
    && SettledKept(row.nodes, after.nodes) && EndsAs(after, wave.prepared)
    && (wave.verdict.Continued? ==> Runs(after) && forall n :: n in wave.prepared ==>
          n < |after.nodes| && after.nodes[n].status.Completed?)
  }

  lemma RefreshKeepsSettled(nodes: seq<Node>)
    ensures SettledKept(nodes, Refresh(nodes))
  {
    forall n | 0 <= n < |nodes| && Closed(nodes[n]) ensures Refresh(nodes)[n] == nodes[n] { RefreshClosed(nodes, n); }
  }

  lemma DoneKeepsSettled(before: seq<Node>, p: Prep, w: nat, o: Oracle)
    requires SettledKept(before, p.nodes)
    requires forall n :: n in p.prepared && n < |before| ==> !Closed(before[n])
    ensures SettledKept(before, DoneNodes(p.nodes, p.prepared, w, o))
  {
    var finished := FinishedNodes(p.nodes, p.prepared, w, o);
    RefreshKeepsSettled(finished);
    assert SettledKept(before, finished);
  }

  lemma LeavesSettled(row: Row, p: Prep, verdict: Verdict, w: nat, o: Oracle)
    requires SettledKept(row.nodes, p.nodes) && forall n :: n in p.prepared && n < |row.nodes| ==> !Closed(row.nodes[n])
    ensures SettledKept(row.nodes, WaveLeaves(row, p, verdict, w, o).nodes)
  {
    RefreshKeepsSettled(row.nodes);
    DoneKeepsSettled(row.nodes, p, w, o);
  }

  /** The nodes of an executed wave after it: a member is COMPLETED or FAILED, under the contract it had. */
  lemma MemberDone(p: Prep, w: nat, o: Oracle, n: nat)
    requires n in p.prepared && n < |p.nodes|
    ensures var node := DoneNodes(p.nodes, p.prepared, w, o)[n];
      && node.contract == p.nodes[n].contract
      && node.status == if o.Succeeds(w, n) then NodeStatus.Completed else NodeStatus.Failed
  {
    RefreshClosed(FinishedNodes(p.nodes, p.prepared, w, o), n);
  }

  lemma MembersDone(p: Prep, w: nat, o: Oracle, after: Row)
    requires PreparedSide(p) && after.nodes == DoneNodes(p.nodes, p.prepared, w, o)
    ensures forall n :: n in p.prepared ==> MemberIn(p, w, o, after, n)
  {
    forall n | n in p.prepared ensures MemberIn(p, w, o, after, n) {
      MemberIsExecuting(p, n);
      MemberDone(p, w, o, n);
    }
  }

  ghost predicate MemberIn(p: Prep, w: nat, o: Oracle, after: Row, n: nat) {
    && n < |p.nodes| == |after.nodes| && after.nodes[n].contract == p.nodes[n].contract
    && after.nodes[n].status == (if o.Succeeds(w, n) then NodeStatus.Completed else NodeStatus.Failed)
  }

  lemma ExecutedEnds(p: Prep, w: nat, o: Oracle, after: Row)
    requires forall n :: n in p.prepared ==> MemberIn(p, w, o, after, n)
    requires after.status == if SomeFailed(p.prepared, w, o) then FailureStatus(p.nodes, p.prepared, w, o) else Active
    ensures EndsAs(after, p.prepared)
  {
    forall n | n in p.prepared
      ensures FailsWith(after, n, true) <==> !o.Succeeds(w, n) && RollsBack(p.nodes[n])
      ensures FailsWith(after, n, false) <==> !o.Succeeds(w, n) && !RollsBack(p.nodes[n])
    {
      assert MemberIn(p, w, o, after, n);
    }
  }

  lemma QuietEnds(after: Row, prepared: seq<nat>)
    requires after.status.Active? && forall n :: n in prepared && n < |after.nodes| ==> !after.nodes[n].status.Failed?
    ensures EndsAs(after, prepared)
  {
  }

  lemma LeavesEnd(row: Row, p: Prep, verdict: Verdict, prepared: seq<nat>, w: nat, o: Oracle)
    requires row.status.Active? && PreparedSide(p)
    requires verdict.Aborted? ==> forall n :: n in prepared && n < |row.nodes| ==> !row.nodes[n].status.Failed?
    requires verdict.Idle? || verdict.Stuck? ==> prepared == []
    requires verdict.WaveFailed? || verdict.Continued? ==>
      prepared == p.prepared && (verdict.WaveFailed? <==> SomeFailed(p.prepared, w, o))
    ensures var after := WaveLeaves(row, p, verdict, w, o);
      && EndsAs(after, prepared)
      && (verdict.Continued? ==> forall n :: n in prepared ==> n < |after.nodes| && after.nodes[n].status.Completed?)
  {
    var after := WaveLeaves(row, p, verdict, w, o);
    if verdict.WaveFailed? || verdict.Continued? {
      MembersDone(p, w, o, after);
      ExecutedEnds(p, w, o, after);
      if verdict.Continued? {
        forall n | n in prepared ensures n < |after.nodes| && after.nodes[n].status.Completed? {
          assert MemberIn(p, w, o, after, n);
        }
      }
    } else {
      QuietEnds(after, prepared);
    }
  }

  lemma WaveEndsSo(row: Row, maxParallel: int, budget: int, w: nat, o: Oracle)
    requires Runs(row) && maxParallel >= 1 && budget >= 1
    ensures WaveEnds(row, RunWave(row, maxParallel, budget, w, o))
  {
    var wave, p := RunWave(row, maxParallel, budget, w, o), Prepared(row, maxParallel, budget, w, o);
    WaveRow(row, maxParallel, budget, w, o);
    WaveFacts(row, maxParallel, budget, w, o);
    LeavesSettled(row, p, wave.verdict, w, o);
    LeavesEnd(row, p, wave.verdict, wave.prepared, w, o);
    if wave.verdict.Continued? { ContinuedPlan(row, maxParallel, budget, w, o); }
  }

  /** What the wave and its preparation have to do with each other. */
  lemma WaveFacts(row: Row, maxParallel: int, budget: int, w: nat, o: Oracle)
    requires Runs(row) && maxParallel >= 1 && budget >= 1
    ensures var wave, p := RunWave(row, maxParallel, budget, w, o), Prepared(row, maxParallel, budget, w, o);
      && PreparedSide(p) && SettledKept(row.nodes, p.nodes)
      && (forall n :: n in p.prepared ==> n < |row.nodes| && !Closed(row.nodes[n]))
      && (wave.verdict.Idle? || wave.verdict.Stuck? ==> wave.prepared == [])
      && (wave.verdict.Aborted? || wave.verdict.WaveFailed? || wave.verdict.Continued? ==> wave.prepared == p.prepared)
      && (wave.verdict.WaveFailed? ==> SomeFailed(p.prepared, w, o))
      && (wave.verdict.Continued? ==> !SomeFailed(p.prepared, w, o))
  {
    PreparationHolds(row, maxParallel, budget, w, o);
    WaveMembers(row, maxParallel, budget, w, o);
  }

  ghost predicate Ending(f: Waves) {
    forall row: Row, budget: int, w: nat {:trigger WaveEnds(row, f(row, budget, w))} ::
      Runs(row) && budget >= 1 ==> WaveEnds(row, f(row, budget, w))
  }

  lemma EndsAsLater(mid: Row, after: Row, first: seq<nat>, rest: seq<nat>)
    requires SettledKept(mid.nodes, after.nodes) && EndsAs(after, rest)
    requires forall n :: n in first ==> n < |mid.nodes| && mid.nodes[n].status.Completed?
    ensures EndsAs(after, first + rest)
  {
    forall n | n in first ensures !FailsWith(after, n, true) && !FailsWith(after, n, false) {
      assert Closed(mid.nodes[n]);
    }
  }

  ghost predicate LoopEnded(f: Waves, row: Row, budget: int, w: nat) {
    var after := RunRow(row, Loop(f, row, budget, w));
    SettledKept(row.nodes, after.nodes) && EndsAs(after, LoopStarted(f, row, budget, w))
  }

  lemma TurnEnded(f: Waves, row: Row, budget: int, w: nat)
    requires budget > 0 && WaveEnds(row, f(row, budget, w))
    requires var wave := f(row, budget, w);
      if wave.verdict.Continued? && |wave.prepared| > 0
      then LoopEnded(f, RunRow(row, wave.events), budget - |wave.prepared|, w + 1) else true
    ensures LoopEnded(f, row, budget, w)
  {
    var wave := f(row, budget, w);
    if wave.verdict.Continued? && |wave.prepared| > 0 {
      var mid, left := RunRow(row, wave.events), budget - |wave.prepared|;
      RowAppends(row, wave.events, Loop(f, mid, left, w + 1));
      EndsAsLater(mid, RunRow(mid, Loop(f, mid, left, w + 1)), wave.prepared, LoopStarted(f, mid, left, w + 1));
    }
  }

  lemma {:induction false} LoopEnds(f: Waves, row: Row, budget: int, w: nat)
    requires Ending(f) && Runs(row)
    ensures LoopEnded(f, row, budget, w)
    decreases budget
  {
    if budget > 0 {
      var wave := f(row, budget, w);
      assert WaveEnds(row, f(row, budget, w));
      if wave.verdict.Continued? && |wave.prepared| > 0 {
        LoopEnds(f, RunRow(row, wave.events), budget - |wave.prepared|, w + 1);
      }
      TurnEnded(f, row, budget, w);
    }
  }

  /** How a run ends: ACTIVE, unless an action failed; then FAILED if and only if some started node ended
      FAILED whose contract says rollback, and RECOVERY_REQUIRED if and only if some ended FAILED and none of
      those says so. Out of bounds, or on a saga that is not ACTIVE, nothing happens. */
  lemma RunVerdict(row: Row, maxParallel: int, maxSteps: int, o: Oracle)
    requires PlanOk(row.nodes, |row.steps|)
    ensures var after := RunRow(row, RunProgram(row, maxParallel, maxSteps, o));
      if row.status.Active? && 1 <= maxParallel <= 32 && 1 <= maxSteps <= 1000
      then EndsAs(after, Started(row, maxParallel, maxSteps, o)) else after == row
  {
    if RunAllowed(row, maxParallel, maxSteps) {
      var f := WavesOf(maxParallel, o);
      forall r: Row, budget: int, w: nat | Runs(r) && budget >= 1 ensures WaveEnds(r, f(r, budget, w)) {
        WaveEndsSo(r, maxParallel, budget, w, o);
      }
      LoopEnds(f, row, maxSteps, 0);
    }
  }
}
