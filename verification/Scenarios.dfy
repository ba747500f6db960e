/** Reachable states that show where a guarantee ends: a crash the recovery sweep does not see, a call
    made by a worker whose lease had run out, and a committed saga with a compensated step. */
module Scenarios {
  import opened Types
  import opened AbstractStore
  import opened Engine
  import opened Programs
  import opened Ledger
  import opened WaveSafety
  import opened Interleaving
  import opened RollbackResults

  // ---- one worker alone, cut after n events ----

  function Advances(token: nat, n: nat): seq<Move> { seq(n, _ => Advance(token)) }

  /** Take the lease, read, perform `n` events. A lease of no duration is free again at once. */
  function Solo(op: Op, token: nat, o: Oracle, n: nat): seq<Move> {
    [TakeLease("worker", 0.0, op), Read(token, o)] + Advances(token, n)
  }

  ghost predicate Takeable(w: World) { Free(w.lease, w.now) && forall t :: t in w.sessions ==> t <= w.lease.fence }

  ghost predicate Alone(w: World) { w.sessions == map[] && Free(w.lease, w.now) }

  lemma RunMoveSnoc(w: World, moves: seq<Move>, m: Move)
    ensures Run(w, moves + [m]) == Next(Run(w, moves), m)
  {
    assert (moves + [m])[..|moves|] == moves;
  }

  lemma SoloOpens(w: World, op: Op, o: Oracle)
    requires Takeable(w) && (op.Recover? ==> IsPending(w.book.row))
    ensures var v, token := Run(w, Solo(op, w.lease.fence + 1, o, 0)), w.lease.fence + 1;
      && v.book == w.book && v.sessions == w.sessions[token := Running(Program(op, w.book.row, o))]
      && v.now == w.now && v.lease == Granted(w.lease, "worker", w.now, 0.0)
  {
    var take, read := TakeLease("worker", 0.0, op), Read(w.lease.fence + 1, o);
    assert Solo(op, w.lease.fence + 1, o, 0) == [take] + [read];
    assert [] + [take] == [take] && Run(w, []) == w;
    RunMoveSnoc(w, [], take);
    RunMoveSnoc(w, [take], read);
  }

  lemma AdvanceOne(v: World, token: nat, rest: seq<Event>)
    requires token in v.sessions && v.sessions[token] == Running(rest) && token == v.lease.fence && rest != []
    ensures var u := Next(v, Advance(token));
      && u.book.row == After(v.book.row, rest[0]) && u.sessions == v.sessions[token := Running(rest[1..])]
      && u.lease == v.lease && u.now == v.now
  {
  }

  lemma PrefixGrows(row: Row, events: seq<Event>, n: nat)
    requires 0 < n <= |events|
    ensures RunRow(row, events[..n]) == After(RunRow(row, events[..n - 1]), events[n - 1..][0])
    ensures events[n - 1..][1..] == events[n..]
  {
    var last := events[n - 1];
    assert events[..n] == events[..n - 1] + [last];
    RowAppends(row, events[..n - 1], [last]);
    var mid := RunRow(row, events[..n - 1]);
    assert RunRow(mid, [last]) == RunRow(After(mid, last), []);
  }

  /** The holder performs its next `n` events. */
  lemma {:induction false} AdvancesReach(v: World, token: nat, events: seq<Event>, n: nat)
    requires token in v.sessions && v.sessions[token] == Running(events) && token == v.lease.fence && n <= |events|
    ensures var u := Run(v, Advances(token, n));
      && u.book.row == RunRow(v.book.row, events[..n]) && u.sessions == v.sessions[token := Running(events[n..])]
      && u.lease == v.lease && u.now == v.now
  {
    if n == 0 {
      assert events[..0] == [] && events[0..] == events && Advances(token, 0) == [];
    } else {
      AdvancesReach(v, token, events, n - 1);
      assert Advances(token, n) == Advances(token, n - 1) + [Advance(token)];
      RunMoveSnoc(v, Advances(token, n - 1), Advance(token));
      AdvanceOne(Run(v, Advances(token, n - 1)), token, events[n - 1..]);
      PrefixGrows(v.book.row, events, n);
    }
  }

  /** Every cut of every operation's program is reached: a worker left alone gets that far, whoever
      else is stalled. */
  lemma SoloReaches(w: World, op: Op, o: Oracle, n: nat)
    requires Takeable(w) && (op.Recover? ==> IsPending(w.book.row)) && n <= |Program(op, w.book.row, o)|
    ensures var v, token := Run(w, Solo(op, w.lease.fence + 1, o, n)), w.lease.fence + 1;
      && v.book.row == RunRow(w.book.row, Program(op, w.book.row, o)[..n])
      && v.sessions == w.sessions[token := Running(Program(op, w.book.row, o)[n..])]
      && v.now == w.now && v.lease == Granted(w.lease, "worker", w.now, 0.0)
  {
    var token := w.lease.fence + 1;
    SoloOpens(w, op, o);
    RunSplit(w, Solo(op, token, o, 0), Advances(token, n));
    assert Solo(op, token, o, 0) + Advances(token, n) == Solo(op, token, o, n);
    AdvancesReach(Run(w, Solo(op, token, o, 0)), token, Program(op, w.book.row, o), n);
  }

  /** The worker then dies. */
  lemma SoloCrashes(w: World, op: Op, o: Oracle, n: nat)
    requires Alone(w) && (op.Recover? ==> IsPending(w.book.row)) && n <= |Program(op, w.book.row, o)|
    ensures var v := Run(w, Solo(op, w.lease.fence + 1, o, n) + [Crash(w.lease.fence + 1)]);
      && v.book.row == RunRow(w.book.row, Program(op, w.book.row, o)[..n])
      && Alone(v) && v.lease.fence == w.lease.fence + 1 && v.now == w.now
  {
    SoloReaches(w, op, o, n);
    RunMoveSnoc(w, Solo(op, w.lease.fence + 1, o, n), Crash(w.lease.fence + 1));
  }

  // ---- a crash between recording results and saving the nodes ----

  ghost predicate OneReady(row: Row) {
    && row.status.Active? && |row.nodes| == 1 && row.steps == []
    && row.nodes[0].status.Ready? && row.nodes[0].stepNo.None?
  }

  /** Node `n` is the next and only one to run. */
  ghost predicate NextUp(row: Row, n: nat) {
    && row.status.Active? && n < |row.nodes| && Refresh(row.nodes) == row.nodes && ReadyNodes(row.nodes) == [n]
    && (row.nodes[n].stepNo.Some? ==> row.nodes[n].stepNo.value < |row.steps|)
  }

  /** One call of the action, which succeeds. */
  ghost predicate CallsOnce(o: Oracle, n: nat) {
    o.resolves(0, n) && o.valid(0, n) && o.member(0, n).maxAttempts >= 1 && o.member(0, n).attempt(1).Succeeded?
  }

  lemma OneReadyIsNext(row: Row)
    requires OneReady(row)
    ensures NextUp(row, 0)
  {
    RefreshPartial(row.nodes, row.nodes, Upto(1));
    assert PartialAt(row.nodes, Refresh(row.nodes), 0);
    assert row.nodes[..0] == [] && ReadyNodes(row.nodes[..0]) == [];
  }

  /** The step node `n` runs under. */
  function Under(row: Row, n: nat): nat
    requires n < |row.nodes|
  {
    if row.nodes[n].stepNo.Some? then row.nodes[n].stepNo.value else |row.steps|
  }

  function Opening(row: Row, n: nat): Event
    requires n < |row.nodes|
  {
    if row.nodes[n].stepNo.Some? then Mark(row.nodes[n].stepNo.value, StepStatus.Executing)
    else Write(NewStep(FreshStep(row.nodes[n].contract)))
  }

  function Begins(row: Row, n: nat): seq<Node>
    requires n < |row.nodes|
  {
    row.nodes[n := row.nodes[n].(status := NodeStatus.Executing, stepNo := Some(Under(row, n)))]
  }

  function Ends(row: Row, n: nat): seq<Node>
    requires n < |row.nodes|
  {
    Refresh(Begins(row, n)[n := Finished(Begins(row, n)[n], true)])
  }

  lemma OnePrepared(row: Row, n: nat, maxParallel: int, o: Oracle)
    requires NextUp(row, n) && CallsOnce(o, n) && maxParallel == 1
    ensures var p := Prepared(row, maxParallel, maxParallel, 0, o);
      && p.nodes == Begins(row, n) && p.events == [Opening(row, n)] && p.prepared == [n] && !p.aborted
  {
    var p := Prep(row.nodes, row.steps, [], [], false);
    assert [n][..1] == [n] && [n][1..] == [];
    assert Prepare(p, [n], 0, o) == Prepare(PrepareOne(p, n, 0, o), [], 0, o);
  }

  lemma OneDue(o: Oracle, n: nat)
    requires CallsOnce(o, n)
    ensures CallOrder([n], 0, o) == [n] && o.Succeeds(0, n)
  {
    assert [n][1..] == [] && Due([], 0, o) == [];
    assert Due([n], 0, o) == [n];
    assert o.pick(0, 0) % 1 == 0;
    assert Interleaved([n], 0, 0, o) == [n] + Interleaved([], 0, 1, o);
  }

  /** The whole run: journal the step, save the node, call, record, save. */
  function OneRun(row: Row, n: nat): seq<Event>
    requires n < |row.nodes|
  {
    [Opening(row, n), SaveNodes(Begins(row, n)), Invoke(Some(n), Under(row, n)),
     Mark(Under(row, n), StepStatus.Completed), SaveNodes(Ends(row, n))]
  }

  lemma OneRunProgram(row: Row, n: nat, maxParallel: int, o: Oracle)
    requires NextUp(row, n) && CallsOnce(o, n) && maxParallel == 1
    ensures RunProgram(row, maxParallel, maxParallel, o) == OneRun(row, n)
  {
    OnePrepared(row, n, maxParallel, o);
    OneDue(o, n);
    var p, wave := Prepared(row, maxParallel, maxParallel, 0, o), RunWave(row, maxParallel, maxParallel, 0, o);
    OneExecution(p.nodes, n, o);
    assert !SomeFailed(p.prepared, 0, o);
    assert wave.events == [Opening(row, n)] + [SaveNodes(p.nodes)] + Execution(p.nodes, [n], 0, o);
    assert RunProgram(row, maxParallel, maxParallel, o) == wave.events + [];
  }

  lemma OneExecution(nodes: seq<Node>, n: nat, o: Oracle)
    requires n < |nodes| && nodes[n].stepNo.Some? && CallsOnce(o, n)
    ensures Execution(nodes, [n], 0, o) ==
      [Invoke(Some(n), nodes[n].stepNo.value), Mark(nodes[n].stepNo.value, StepStatus.Completed),
       SaveNodes(Refresh(nodes[n := Finished(nodes[n], true)]))]
  {
    OneDue(o, n);
    assert Invocations(nodes, [n]) == [Invoke(Some(n), nodes[n].stepNo.value)];
    assert FinishEvents(nodes, [n], 0, o) == [Mark(nodes[n].stepNo.value, StepStatus.Completed)];
    assert FinishedNodes(nodes, [n], 0, o) == nodes[n := Finished(nodes[n], true)];
  }

  lemma RunFive(row: Row, es: seq<Event>)
    requires |es| == 5
    ensures RunRow(row, es[..2]) == After(After(row, es[0]), es[1])
    ensures RunRow(row, es[..4]) == After(After(RunRow(row, es[..2]), es[2]), es[3])
    ensures RunRow(row, es) == After(RunRow(row, es[..4]), es[4])
  {
    forall i | 0 <= i < 5 ensures RunRow(row, es[..i + 1]) == After(RunRow(row, es[..i]), es[i]) {
      RunSnoc(row, es[..i], es[i]);
      assert es[..i + 1] == es[..i] + [es[i]];
    }
    assert es[..0] == [] && RunRow(row, es[..0]) == row && es[..1 + 1] == es[..2] && es[..4 + 1] == es;
  }

  /** The row after two, four and all five events of the run. */
  lemma OneRunCuts(row: Row, n: nat)
    requires NextUp(row, n)
    ensures RunRow(row, OneRun(row, n)[..2]) == After(row, Opening(row, n)).(nodes := Begins(row, n))
    ensures RunRow(row, OneRun(row, n)[..4]) ==
            After(After(row, Opening(row, n)), Mark(Under(row, n), StepStatus.Completed)).(nodes := Begins(row, n))
    ensures RunRow(row, OneRun(row, n)) == RunRow(row, OneRun(row, n)[..4]).(nodes := Ends(row, n))
  {
    RunFive(row, OneRun(row, n));
  }

  /** The saga is ACTIVE, nobody holds it, one node is in flight, and no step is: it is not
      pending, so no sweep ever changes it. */
  ghost predicate Stranded(row: Row) {
    && row.status.Active? && !IsPending(row)
    && (exists n :: 0 <= n < |row.nodes| && InFlight(row.nodes[n]))
    && forall o: Oracle :: Swept(row, o) == row
  }

  lemma CutStrands(row: Row)
    requires row.status.Active? && |row.nodes| == 1 && InFlight(row.nodes[0]) && |row.steps| == 1 &&
             row.steps[0].status.Completed?
    ensures Stranded(row)
  {
    assert InFlight(row.nodes[0]);
  }

  /** From any world in which nobody works on a saga with a single READY node, a run that crashes
      after recording its result and before saving its node strands the saga. */
  lemma CrashStrands(w: World, o: Oracle, op: Op, n: nat)
    requires Alone(w) && OneReady(w.book.row) && CallsOnce(o, 0) && op == RunReady(1, 1) && n == 4
    ensures var v := Run(w, Solo(op, w.lease.fence + 1, o, n) + [Crash(w.lease.fence + 1)]);
      Alone(v) && Stranded(v.book.row)
  {
    OneReadyIsNext(w.book.row);
    OneRunProgram(w.book.row, 0, op.maxParallel, o);
    OneRunCuts(w.book.row, 0);
    SoloCrashes(w, op, o, n);
    CutStrands(Run(w, Solo(op, w.lease.fence + 1, o, n) + [Crash(w.lease.fence + 1)]).book.row);
  }

  /** Such a world is reached by planning one step. */
  lemma PlanReachesOneReady(w: World, q: PlanRequest, o: Oracle)
    requires Alone(w) && w.book.row == Row(Active, [], [])
    requires Ungated(q, [])
    ensures var v := Run(w, Solo(Plan(q), w.lease.fence + 1, o, 1) + [Crash(w.lease.fence + 1)]);
      Alone(v) && OneReady(v.book.row)
  {
    var row := w.book.row;
    var nodes := [PlannedNode(q)];
    assert row.nodes + [PlannedNode(q)] == nodes;
    assert PlanProgram(row, q) == [SaveNodes(Refresh(nodes))];
    RefreshPartial(nodes, nodes, Upto(1));
    assert PartialAt(nodes, Refresh(nodes), 0);
    SoloCrashes(w, Plan(q), o, 1);
    assert PlanProgram(row, q)[..1] == PlanProgram(row, q);
    assert RunRow(row, PlanProgram(row, q)) == RunRow(After(row, SaveNodes(Refresh(nodes))), []);
  }

  /** So recovery does not close every crash: some run of plan, run and crash ends stranded. */
  lemma SomeCrashIsNeverRecovered(q: PlanRequest, o: Oracle)
    requires Ungated(q, []) && CallsOnce(o, 0)
    ensures exists moves: seq<Move> :: Alone(Run(Begun(0.0), moves)) && Stranded(Run(Begun(0.0), moves).book.row)
  {
    var w := Begun(0.0);
    var a := Solo(Plan(q), w.lease.fence + 1, o, 1) + [Crash(w.lease.fence + 1)];
    PlanReachesOneReady(w, q, o);
    var v := Run(w, a);
    var b := Solo(RunReady(1, 1), v.lease.fence + 1, o, 4) + [Crash(v.lease.fence + 1)];
    CrashStrands(v, o, RunReady(1, 1), 4);
    RunSplit(w, a, b);
    assert Alone(Run(w, a + b)) && Stranded(Run(w, a + b).book.row);
  }

  // ---- a call after another worker's rollback ----

  ghost predicate RepairsAll(o: Oracle) { forall k :: Undone(o.repair(k)) }

  lemma RollsBackAll(row: Row, o: Oracle)
    requires row.status.Active? && PlanOk(row.nodes, |row.steps|) && RepairsAll(o)
    ensures RunRow(row, RollbackProgram(row, o)).status.RolledBack?
  {
    PassVerdict(row, o);
  }

  /** The saga as a worker leaves it that stalls between journaling its step and calling the action. */
  function StalledRow(row: Row): Row
    requires |row.nodes| == 1
  {
    Row(Active, Begins(row, 0), [FreshStep(row.nodes[0].contract)])
  }

  /** Its lease runs out; another worker rolls the saga back; then the first one wakes up and calls. */
  function LateCall(t: nat, row: Row, o: Oracle): seq<Move>
    requires |row.nodes| == 1
  {
    Solo(RunReady(1, 1), t, o, 2) + Solo(RollBack, t + 1, o, |Program(RollBack, StalledRow(row), o)|) + [Advance(t)]
  }

  lemma Stalls(w: World, o: Oracle, op: Op, n: nat)
    requires Alone(w) && OneReady(w.book.row) && CallsOnce(o, 0) && op == RunReady(1, 1) && n == 2
    ensures var v, t := Run(w, Solo(op, w.lease.fence + 1, o, n)), w.lease.fence + 1;
      && v.book.row == StalledRow(w.book.row) && Takeable(v) && v.lease.fence == t
      && t in v.sessions && v.sessions[t].Running?
      && v.sessions[t].rest != [] && v.sessions[t].rest[0] == Invoke(Some(0), 0)
  {
    OneReadyIsNext(w.book.row);
    OneRunProgram(w.book.row, 0, op.maxParallel, o);
    OneRunCuts(w.book.row, 0);
    SoloReaches(w, op, o, n);
  }

  /** An operation run to its end beside a stalled session. */
  lemma SoloCompletes(v: World, t: nat, op: Op, o: Oracle)
    requires Takeable(v) && t in v.sessions && !op.Recover?
    ensures var u := Run(v, Solo(op, v.lease.fence + 1, o, |Program(op, v.book.row, o)|));
      u.book.row == RunRow(v.book.row, Program(op, v.book.row, o)) && t in u.sessions && u.sessions[t] == v.sessions[t]
  {
    SoloReaches(v, op, o, |Program(op, v.book.row, o)|);
    var events := Program(op, v.book.row, o);
    assert events[..|events|] == events;
  }

  lemma OtherRollsBack(v: World, t: nat, o: Oracle, op: Op)
    requires Takeable(v) && v.lease.fence == t && t in v.sessions && RepairsAll(o) && op == RollBack
    requires v.book.row.status.Active? && PlanOk(v.book.row.nodes, |v.book.row.steps|)
    ensures var u := Run(v, Solo(op, t + 1, o, |Program(op, v.book.row, o)|));
      u.book.row.status.RolledBack? && t in u.sessions && u.sessions[t] == v.sessions[t]
  {
    SoloCompletes(v, t, op, o);
    RollsBackAll(v.book.row, o);
  }

  lemma LateCallHappens(w: World, o: Oracle)
    requires Alone(w) && OneReady(w.book.row) && CallsOnce(o, 0) && RepairsAll(o)
    requires PlanOk(Begins(w.book.row, 0), 1)
    ensures EndsWithCall(Run(w, LateCall(w.lease.fence + 1, w.book.row, o)).book)
  {
    var t := w.lease.fence + 1;
    var first := Solo(RunReady(1, 1), t, o, 2);
    var second := Solo(RollBack, t + 1, o, |Program(RollBack, StalledRow(w.book.row), o)|);
    Stalls(w, o, RunReady(1, 1), 2);
    OtherRollsBack(Run(w, first), t, o, RollBack);
    RunSplit(w, first, second);
    RunMoveSnoc(w, first + second, Advance(t));
    StalledCalls(Run(w, first + second), t, Run(w, first).sessions[t].rest);
  }

  lemma StalledCalls(v: World, t: nat, rest: seq<Event>)
    requires t in v.sessions && v.sessions[t] == Running(rest) && rest != [] && rest[0] == Invoke(Some(0), 0)
    ensures var u := Next(v, Advance(t)); u.book.row == v.book.row && u.book.log == v.book.log + [Invoke(Some(0), 0)]
  {
  }

  ghost predicate EndsWithCall(b: Book) {
    b.row.status.RolledBack? && b.log != [] && b.log[|b.log| - 1] == Invoke(Some(0), 0)
  }

  /** So the assumption that only lease holders call is needed: a late worker leaves a ROLLED_BACK saga
      whose last external call is a forward call. */
  lemma LateCallEscapesRollback(q: PlanRequest, o: Oracle)
    requires Ungated(q, [])
    requires CallsOnce(o, 0) && RepairsAll(o)
    ensures exists moves: seq<Move> :: EndsWithCall(Run(Begun(0.0), moves).book)
  {
    var w := Begun(0.0);
    var a := Solo(Plan(q), w.lease.fence + 1, o, 1) + [Crash(w.lease.fence + 1)];
    PlanReachesOneReady(w, q, o);
    var v := Run(w, a);
    StartedPlanOk(0.0, a);
    LateCallHappens(v, o);
    RunSplit(w, a, LateCall(v.lease.fence + 1, v.book.row, o));
  }

  lemma StartedPlanOk(now: real, moves: seq<Move>)
    requires OneReady(Run(Begun(now), moves).book.row)
    ensures PlanOk(Begins(Run(Begun(now), moves).book.row, 0), 1)
  {
    AlwaysInv(now, moves);
    var row := Run(Begun(now), moves).book.row;
    assert PlanOk(row.nodes, 0);
  }

  // ---- a committed saga with a compensated step ----

  ghost predicate LeftAt(moves: seq<Move>, row: Row) {
    Alone(Run(Begun(0.0), moves)) && Run(Begun(0.0), moves).book.row == row
  }

  /** Some run leaves the saga in this row with nobody working on it. */
  ghost predicate Attainable(row: Row) { exists moves :: LeftAt(moves, row) }

  lemma CutIsAttainable(row: Row, op: Op, o: Oracle, n: nat)
    requires Attainable(row) && (op.Recover? ==> IsPending(row)) && n <= |Program(op, row, o)|
    ensures Attainable(RunRow(row, Program(op, row, o)[..n]))
  {
    var moves :| LeftAt(moves, row);
    var w := Run(Begun(0.0), moves);
    var more := Solo(op, w.lease.fence + 1, o, n) + [Crash(w.lease.fence + 1)];
    SoloCrashes(w, op, o, n);
    RunSplit(Begun(0.0), moves, more);
    assert LeftAt(moves + more, RunRow(row, Program(op, row, o)[..n]));
  }

  lemma WholeIsAttainable(row: Row, op: Op, o: Oracle)
    requires Attainable(row) && (op.Recover? ==> IsPending(row))
    ensures Attainable(RunRow(row, Program(op, row, o)))
  {
    CutIsAttainable(row, op, o, |Program(op, row, o)|);
    assert Program(op, row, o)[..|Program(op, row, o)|] == Program(op, row, o);
  }

  /** Two planned nodes, the second depending on the first. */
  function First(c: Contract, status: NodeStatus, step: Option<nat>): Node {
    Node(None, [], status, false, Unneeded, step, false, c)
  }

  function Second(c: Contract, status: NodeStatus, step: Option<nat>, uncertain: bool): Node {
    Node(None, [0], status, false, Unneeded, step, uncertain, c)
  }

  lemma RefreshSecond(nodes: seq<Node>)
    requires |nodes| == 2 && !Refreshable(nodes[0])
    ensures Refresh(nodes) ==
      if Refreshable(nodes[1]) then nodes[1 := Settled(nodes[1], Dependency(nodes[1].deps, nodes))] else nodes
  {
    assert Upto(2)[..1] == [0] && [0][..0] == [] && Upto(2)[1] == 1;
    assert RefreshAlong(nodes, [0]) == nodes;
  }

  lemma ReadyOfTwo(nodes: seq<Node>)
    requires |nodes| == 2 && (nodes[0].status.Ready? <==> !nodes[1].status.Ready?)
    ensures ReadyNodes(nodes) == [if nodes[0].status.Ready? then 0 else 1]
  {
    assert nodes[..1][..0] == [] && ReadyNodes(nodes[..1]) == if nodes[0].status.Ready? then [0] else [];
  }

  /** Every action succeeds at once, and so does every repair. */
  ghost predicate Smooth(o: Oracle) {
    && CallsOnce(o, 0) && CallsOnce(o, 1)
    && forall k :: 0 <= k < 2 ==>
         o.repair(k).Resolved? && o.repair(k).maxAttempts >= 1 && o.repair(k).attempt(1).Succeeded?
  }

  /** Both nodes planned. */
  function PlannedRow(a: Contract, c: Contract): Row {
    Row(Active, [First(a, Ready, None), Second(c, WaitingDependency, None, false)], [])
  }

  /** The first node done, the second one ready. */
  function HalfDone(a: Contract, c: Contract): Row {
    Row(Active, [First(a, NodeStatus.Completed, Some(0)), Second(c, Ready, None, false)],
        [Step(StepStatus.Completed, 0, a)])
  }

  /** The second one under way. */
  function HalfWay(a: Contract, c: Contract): Row {
    Row(Active, [First(a, NodeStatus.Completed, Some(0)), Second(c, NodeStatus.Executing, Some(1), false)],
        [Step(StepStatus.Completed, 0, a), Step(StepStatus.Executing, 0, c)])
  }

  function BothCompensated(a: Contract, c: Contract): seq<Step> {
    [Step(StepStatus.Compensated, 1, a), Step(StepStatus.Compensated, 1, c)]
  }

  /** The rollback is cut before it saves the nodes. */
  function HalfRolledBack(a: Contract, c: Contract): Row {
    Row(RollingBack, HalfWay(a, c).nodes, BothCompensated(a, c))
  }

  /** Retried by an operator after recovery has escalated. */
  function Reopened(a: Contract, c: Contract): Row {
    Row(Active, [First(a, NodeStatus.Completed, Some(0)), Second(c, Ready, Some(1), false)], BothCompensated(a, c))
  }

  function CommittedRow(a: Contract, c: Contract): Row {
    Row(Committed, [First(a, NodeStatus.Completed, Some(0)), Second(c, NodeStatus.Completed, Some(1), false)],
        [Step(StepStatus.Compensated, 1, a), Step(StepStatus.Completed, 1, c)])
  }

  lemma RefreshFirst(nodes: seq<Node>)
    requires |nodes| == 1 && !Refreshable(nodes[0])
    ensures Refresh(nodes) == nodes
  {
    RefreshPartial(nodes, nodes, Upto(1));
    assert PartialAt(nodes, Refresh(nodes), 0);
  }

  predicate Ungated(q: PlanRequest, deps: seq<nat>) {
    q.contract.Some? && q.deps == deps && !q.policyApproval && q.approval.None? && q.key.None?
  }

  lemma FirstPlanned(q: PlanRequest)
    requires Ungated(q, [])
    ensures PlannedNode(q) == First(q.contract.value, Ready, None)
  {
  }

  lemma SecondPlanned(q: PlanRequest)
    requires Ungated(q, [0])
    ensures PlannedNode(q) == Second(q.contract.value, WaitingDependency, None, false)
  {
    assert q.deps[..0] == [] && Dedup(q.deps) == [0];
  }

  lemma PlanFirst(row: Row, q: PlanRequest, after: Row, o: Oracle)
    requires Attainable(row) && row.status.Active? && row.nodes == [] && Ungated(q, [])
    requires after == row.(nodes := [First(q.contract.value, Ready, None)])
    ensures Attainable(after)
  {
    FirstPlanned(q);
    RefreshFirst(after.nodes);
    PlanOne(row, q, after, o);
  }

  lemma SecondAllowed(row: Row, q: PlanRequest)
    requires row.status.Active? && |row.nodes| == 1 && Ungated(q, [0])
    ensures PlanAllowed(row, q)
  {
  }

  lemma SecondWaits(nodes: seq<Node>)
    requires |nodes| == 2 && nodes[0].status.Ready? && nodes[1].status.WaitingDependency? && nodes[1].deps == [0]
    ensures Refresh(nodes) == nodes
  {
    RefreshSecond(nodes);
    assert 0 in nodes[1].deps;
  }

  lemma PlanSecond(row: Row, q: PlanRequest, after: Row, o: Oracle)
    requires Attainable(row) && row.status.Active? && |row.nodes| == 1 && row.nodes[0].status.Ready?
    requires Ungated(q, [0])
    requires after == row.(nodes := row.nodes + [Second(q.contract.value, WaitingDependency, None, false)])
    ensures Attainable(after)
  {
    assert PlanAllowed(row, q) by { SecondAllowed(row, q); }
    assert PlannedNode(q) == Second(q.contract.value, WaitingDependency, None, false) by { SecondPlanned(q); }
    assert Refresh(after.nodes) == after.nodes by { SecondWaits(after.nodes); }
    PlanOne(row, q, after, o);
  }

  lemma PlanBoth(q: PlanRequest, r: PlanRequest, o: Oracle)
    requires Ungated(q, []) && Ungated(r, [0])
    ensures Attainable(PlannedRow(q.contract.value, r.contract.value))
  {
    var row0 := Begun(0.0).book.row;
    var row1 := row0.(nodes := [First(q.contract.value, Ready, None)]);
    assert LeftAt([], row0);
    PlanFirst(row0, q, row1, o);
    PlanSecond(row1, r, PlannedRow(q.contract.value, r.contract.value), o);
  }

  lemma PlanOne(row: Row, q: PlanRequest, after: Row, o: Oracle)
    requires Attainable(row) && PlanAllowed(row, q)
    requires after == row.(nodes := row.nodes + [PlannedNode(q)]) && Refresh(after.nodes) == after.nodes
    ensures Attainable(after)
  {
    WholeIsAttainable(row, Plan(q), o);
    assert PlanProgram(row, q) == [] + [SaveNodes(after.nodes)];
    RunSnoc(row, [], SaveNodes(after.nodes));
    assert RunRow(row, PlanProgram(row, q)) == After(row, SaveNodes(after.nodes)) == after;
  }

  lemma FirstIsNext(row: Row)
    requires row.status.Active? && |row.nodes| == 2 && row.nodes[0].status.Ready? && row.nodes[0].stepNo.None?
    requires row.nodes[1].status.WaitingDependency? && row.nodes[1].deps == [0]
    ensures NextUp(row, 0)
  {
    SecondWaits(row.nodes);
    ReadyOfTwo(row.nodes);
  }

  lemma SecondIsNext(row: Row)
    requires row.status.Active? && |row.nodes| == 2 && row.nodes[0].status.Completed? && row.nodes[1].status.Ready?
    requires row.nodes[1].stepNo.Some? ==> row.nodes[1].stepNo.value < |row.steps|
    ensures NextUp(row, 1)
  {
    RefreshSecond(row.nodes);
    ReadyOfTwo(row.nodes);
  }

  lemma FirstEnds(a: Contract, c: Contract)
    ensures Ends(PlannedRow(a, c), 0) == HalfDone(a, c).nodes
  {
    var row := PlannedRow(a, c);
    var done := [First(a, NodeStatus.Completed, Some(0)), Second(c, WaitingDependency, None, false)];
    assert Begins(row, 0)[0 := Finished(Begins(row, 0)[0], true)] == done;
    RefreshSecond(done);
    assert done[1].deps == [0] && Dependency(done[1].deps, done).DepReady?;
  }

  lemma RunFirst(a: Contract, c: Contract, o: Oracle, op: Op, n: nat)
    requires Attainable(PlannedRow(a, c)) && Smooth(o) && op == RunReady(1, 1) && n == 0
    ensures Attainable(HalfDone(a, c))
  {
    FirstIsNext(PlannedRow(a, c));
    FirstEnds(a, c);
    RunWhole(PlannedRow(a, c), n, HalfDone(a, c), o, op);
  }

  lemma RunWhole(row: Row, n: nat, after: Row, o: Oracle, op: Op)
    requires Attainable(row) && NextUp(row, n) && CallsOnce(o, n) && op == RunReady(1, 1)
    requires var recorded := After(After(row, Opening(row, n)), Mark(Under(row, n), StepStatus.Completed));
      after == recorded.(nodes := Ends(row, n))
    ensures Attainable(after)
  {
    WholeIsAttainable(row, op, o);
    OneRunProgram(row, n, op.maxParallel, o);
    OneRunCuts(row, n);
  }

  lemma SecondStarts(a: Contract, c: Contract)
    ensures var row := HalfDone(a, c); After(row, Opening(row, 1)).(nodes := Begins(row, 1)) == HalfWay(a, c)
  {
  }

  lemma RunStarted(row: Row, n: nat, o: Oracle, op: Op, cut: nat)
    requires Attainable(row) && NextUp(row, n) && CallsOnce(o, n) && op == RunReady(1, 1) && cut == 2
    ensures Attainable(After(row, Opening(row, n)).(nodes := Begins(row, n)))
  {
    OneRunProgram(row, n, op.maxParallel, o);
    OneRunCuts(row, n);
    CutIsAttainable(row, op, o, cut);
  }

  lemma RepairAtOnce(o: Oracle, k: nat)
    requires Smooth(o) && k < 2
    ensures RepairOne(k, o.repair(k)) == [Compensate(k, true), Write(SetStep(k, StepStatus.Compensated, Some(1)))]
  {
  }

  /** The writes and calls of a pass up to the last step. */
  function Compensations(): seq<Event> {
    [SetStatus(RollingBack), Compensate(1, true), Write(SetStep(1, StepStatus.Compensated, Some(1))),
     Compensate(0, true), Write(SetStep(0, StepStatus.Compensated, Some(1)))]
  }

  lemma RepairsBoth(o: Oracle, ks: seq<nat>)
    requires Smooth(o) && ks == [1, 0]
    ensures [SetStatus(RollingBack)] + Repairs(ks, o) == Compensations()
  {
    RepairAtOnce(o, 0);
    RepairAtOnce(o, 1);
    assert ks[1..] == [0] && [0][1..] == [] && Repairs([], o) == [];
    assert Repairs([0], o) == RepairOne(0, o.repair(0)) + [];
  }

  lemma RollBackHalf(row: Row, o: Oracle, op: Op, n: nat)
    requires Attainable(row) && Smooth(o) && op == RollBack && n == |Compensations()| && row.status.Active?
    requires |row.steps| == 2 && !row.steps[0].status.Compensated? && !row.steps[1].status.Compensated?
    ensures Attainable(RunRow(row, Compensations()))
  {
    ListsBoth(row.steps);
    RepairsBoth(o, Listed(row.steps));
    assert Program(op, row, o)[..n] == Compensations();
    CutIsAttainable(row, op, o, n);
  }

  lemma CompensatesBoth(a: Contract, c: Contract)
    ensures RunRow(HalfWay(a, c), Compensations()) == HalfRolledBack(a, c)
  {
    RunFive(HalfWay(a, c), Compensations());
  }

  lemma ListsBoth(steps: seq<Step>)
    requires |steps| == 2 && !steps[0].status.Compensated? && !steps[1].status.Compensated?
    ensures Listed(steps) == [1, 0]
  {
    assert steps[..1][..0] == [] && Listed(steps[..1]) == [0];
  }

  lemma Reopens(a: Contract, c: Contract, o: Oracle)
    requires Attainable(HalfRolledBack(a, c)) && c.failureMode != Some(Rollback)
    ensures Attainable(Reopened(a, c))
  {
    var row := HalfRolledBack(a, c);
    var failed := [First(a, NodeStatus.Completed, Some(0)), Second(c, NodeStatus.Failed, Some(1), true)];
    assert row.nodes[1] in row.nodes && NeedsOperator(row.nodes);
    assert Escalated(row.nodes) == failed;
    WholeIsAttainable(row, Recover, o);
    RunSnoc(row, [], Write(SetSaga(Some(RecoveryRequired), Some(failed))));
    assert [] + [Write(SetSaga(Some(RecoveryRequired), Some(failed)))]
        == [Write(SetSaga(Some(RecoveryRequired), Some(failed)))];
    RetrySecond(Row(RecoveryRequired, failed, row.steps), Reopened(a, c), o);
  }

  lemma RetrySecond(row: Row, after: Row, o: Oracle)
    requires Attainable(row) && row.status.RecoveryRequired? && |row.nodes| == 2 && row.nodes[0].status.Completed?
    requires row.nodes[1].status.Failed? && row.nodes[1].deps == [0] && !row.nodes[1].approvalRequired
    requires after.status.Active? && after.steps == row.steps
    requires after.nodes == row.nodes[1 := row.nodes[1].(status := Ready, uncertain := false)]
    ensures Attainable(after)
  {
    RefreshSecond(after.nodes);
    WholeIsAttainable(row, Retry(1, true), o);
    assert RetryProgram(row, 1, true) == [] + [SetStatus(Active)] + [SaveNodes(after.nodes)];
    RunSnoc(row, [], SetStatus(Active));
    RunSnoc(row, [] + [SetStatus(Active)], SaveNodes(after.nodes));
  }

  lemma SecondEnds(a: Contract, c: Contract)
    ensures var row, done := Reopened(a, c), CommittedRow(a, c).(status := Active);
      After(After(row, Opening(row, 1)), Mark(Under(row, 1), StepStatus.Completed)).(nodes := Ends(row, 1)) == done
  {
    var row, done := Reopened(a, c), CommittedRow(a, c).(status := Active);
    RefreshSecond(done.nodes);
    assert Begins(row, 1)[1 := Finished(Begins(row, 1)[1], true)] == done.nodes;
  }

  lemma RunSecond(a: Contract, c: Contract, o: Oracle, op: Op, n: nat)
    requires Attainable(Reopened(a, c)) && Smooth(o) && op == RunReady(1, 1) && n == 1
    ensures Attainable(CommittedRow(a, c).(status := Active))
  {
    SecondIsNext(Reopened(a, c));
    SecondEnds(a, c);
    RunWhole(Reopened(a, c), n, CommittedRow(a, c).(status := Active), o, op);
  }

  lemma CommitDone(row: Row, o: Oracle)
    requires Attainable(row) && row.status.Active? && AllCompleted(row.nodes)
    ensures Attainable(row.(status := Committed))
  {
    WholeIsAttainable(row, Commit, o);
    RunSnoc(row, [], SetStatus(Committed));
    assert [] + [SetStatus(Committed)] == [SetStatus(Committed)];
  }

  /** A rollback that is cut, escalated by recovery and force-retried: on the way the second node is READY
      over a dependency whose step is COMPENSATED, and in the end the saga is COMMITTED with that step. */
  lemma CommitsOverCompensatedStep(q: PlanRequest, r: PlanRequest, o: Oracle)
    requires Ungated(q, []) && Ungated(r, [0]) && r.contract.value.failureMode != Some(Rollback) && Smooth(o)
    ensures Attainable(Reopened(q.contract.value, r.contract.value))
    ensures Attainable(CommittedRow(q.contract.value, r.contract.value))
  {
    PlanBoth(q, r, o);
    RunsToCompensatedCommit(q.contract.value, r.contract.value, o);
  }

  lemma RunsToCompensatedCommit(a: Contract, c: Contract, o: Oracle)
    requires Attainable(PlannedRow(a, c)) && c.failureMode != Some(Rollback) && Smooth(o)
    ensures Attainable(Reopened(a, c)) && Attainable(CommittedRow(a, c))
  {
    RunFirst(a, c, o, RunReady(1, 1), 0);
    SecondIsNext(HalfDone(a, c));
    SecondStarts(a, c);
    RunStarted(HalfDone(a, c), 1, o, RunReady(1, 1), 2);
    CompensatesBoth(a, c);
    RollBackHalf(HalfWay(a, c), o, RollBack, |Compensations()|);
    Reopens(a, c, o);
    RunSecond(a, c, o, RunReady(1, 1), 1);
    CommitDone(CommittedRow(a, c).(status := Active), o);
  }
}
