/** What each coordinator operation does to its saga after reading the row under a lease:
    the sequence of store mutations and external effects, in order (coordinator.py). */
module Programs {
  import opened Types
  import opened AbstractStore
  import opened Engine

  /** `Invoke` and `Compensate` are calls into external systems. `Slip` marks a compensation
      loop that ended without success and without recording a failure. */
  datatype Event =
    | Write(change: Change)
    | Invoke(node: Option<nat>, k: nat)
    | Compensate(k: nat, ok: bool)
    | Slip(k: nat)

  function SetStatus(status: SagaStatus): Event { Write(SetSaga(Some(status), None)) }

  function SaveNodes(nodes: seq<Node>): Event { Write(SetSaga(None, Some(nodes))) }

  function Mark(k: nat, status: StepStatus): Event { Write(SetStep(k, status, None)) }

  function After(row: Row, e: Event): Row {
    if e.Write? then Apply(row, e.change) else row
  }

  function RunRow(row: Row, events: seq<Event>): Row
    decreases |events|
  {
    if events == [] then row else RunRow(After(row, events[0]), events[1..])
  }

  lemma {:induction false} RowAppends(row: Row, a: seq<Event>, c: seq<Event>)
    ensures RunRow(row, a + c) == RunRow(RunRow(row, a), c)
    decreases |a|
  {
    if a == [] {
      assert a + c == c;
    } else {
      assert (a + c)[1..] == a[1..] + c;
      RowAppends(After(row, a[0]), a[1..], c);
    }
  }

  lemma RunSnoc(row: Row, events: seq<Event>, e: Event)
    ensures RunRow(row, events + [e]) == After(RunRow(row, events), e)
  {
    RowAppends(row, events, [e]);
    var mid := RunRow(row, events);
    assert RunRow(mid, [e]) == RunRow(After(mid, e), []);
  }

  datatype Outcome = Succeeded | Raised(message: string)

  /** What the registry answers for a step being compensated, and how each attempt goes. */
  datatype Repair = Unresolvable | Resolved(maxAttempts: int, attempt: nat -> Outcome)

  /** The forward attempts of one unplanned step. */
  datatype Forward = Forward(maxAttempts: nat, attempt: nat -> Outcome)

  /** Everything the outside world decides: contract resolution, input validation and forward
      attempts of node `n` in wave `w`, which attempt of a wave comes next (by position among those
      still due), the attempts of an unplanned step, and the repairs. */
  datatype Oracle = Oracle(
    resolves: (nat, nat) -> bool,
    valid: (nat, nat) -> bool,
    member: (nat, nat) -> Forward,
    pick: (nat, nat) -> nat,
    forward: Forward,
    repair: nat -> Repair)
  {
    /** A member of a wave succeeds when one of its attempts does. */
    predicate Succeeds(w: nat, n: nat) { WinsFrom(1, member(w, n)) }
  }

  // ---- execute: one unplanned step ----

  function FreshStep(contract: Contract): Step { Step(StepStatus.Executing, 0, contract) }

  /** How many attempts `_invoke_forward` makes from attempt `i` on: up to the first success. */
  function TriesFrom(i: nat, f: Forward): nat
    decreases f.maxAttempts - i
  {
    if i > f.maxAttempts then 0
    else if f.attempt(i).Succeeded? then 1
    else 1 + TriesFrom(i + 1, f)
  }

  predicate WinsFrom(i: nat, f: Forward)
    decreases f.maxAttempts - i
  {
    i <= f.maxAttempts && (f.attempt(i).Succeeded? || WinsFrom(i + 1, f))
  }

  /** The loop succeeds exactly when some attempt does, never makes more attempts than allowed, and makes
      at least one if it succeeds. */
  lemma {:induction false} TriesMeaning(i: nat, f: Forward)
    ensures WinsFrom(i, f) <==> exists j :: i <= j <= f.maxAttempts && f.attempt(j).Succeeded?
    ensures i <= f.maxAttempts ==> 1 <= TriesFrom(i, f) <= f.maxAttempts - i + 1
    ensures i > f.maxAttempts ==> TriesFrom(i, f) == 0
    decreases f.maxAttempts - i
  {
    if i <= f.maxAttempts { TriesMeaning(i + 1, f); }
  }

  predicate Wins(f: Forward) { exists i :: 1 <= i <= f.maxAttempts && f.attempt(i).Succeeded? }

  function Attempts(node: Option<nat>, k: nat, n: nat): seq<Event> { seq(n, _ => Invoke(node, k)) }

  function ExecuteProgram(row: Row, contract: Option<Contract>, o: Oracle): seq<Event> {
    if !row.status.Active? || contract.None? then []
    else
      var k := |row.steps|;
      [Write(NewStep(FreshStep(contract.value)))] + Attempts(None, k, TriesFrom(1, o.forward)) +
      if Wins(o.forward) then [Mark(k, StepStatus.Completed)]
      else [Mark(k, StepStatus.Failed),
            SetStatus(if contract.value.failureMode == Some(Pause) then RecoveryRequired else SagaStatus.Failed)]
  }

  // ---- plan, approve, retry, commit ----

  /** `contract` is None when the registry refuses the action or its input. */
  datatype PlanRequest = PlanRequest(
    contract: Option<Contract>,
    policyApproval: bool,
    approval: Option<bool>,
    key: Option<string>,
    deps: seq<nat>)

  /** The characters `str.strip` removes, by code point. */
  predicate IsSpace(c: char) {
    var code := c as int;
    || 9 <= code <= 13 || 28 <= code <= 32 || code in {0x85, 0xA0, 0x1680} || 0x2000 <= code <= 0x200A
    || code in {0x2028, 0x2029, 0x202F, 0x205F, 0x3000}
  }

  predicate Blank(s: string) { forall i :: 0 <= i < |s| ==> IsSpace(s[i]) }

  /** First occurrences, in order. */
  function Dedup(s: seq<nat>): (r: seq<nat>)
    ensures forall d :: d in r <==> d in s
    ensures Distinct(r)
  {
    if s == [] then []
    else
      var init := Dedup(s[..|s| - 1]);
      assert s == s[..|s| - 1] + [s[|s| - 1]];
      if s[|s| - 1] in init then init else init + [s[|s| - 1]]
  }

  predicate PlanAllowed(row: Row, q: PlanRequest) {
    && row.status.Active?
    && q.contract.Some?
    && (forall d :: d in q.deps ==> d < |row.nodes|)
    && (q.key.Some? ==> !Blank(q.key.value) && forall n :: n in row.nodes ==> n.key != q.key)
  }

  function PlannedNode(q: PlanRequest): Node
    requires q.contract.Some?
  {
    var required := if q.approval.Some? then q.approval.value else q.policyApproval;
    Node(q.key, Dedup(q.deps),
         if q.deps != [] then WaitingDependency else if required then WaitingApproval else Ready,
         required, if required then Pending else Unneeded, None, false, q.contract.value)
  }

  function PlanProgram(row: Row, q: PlanRequest): seq<Event> {
    if PlanAllowed(row, q) then [SaveNodes(Refresh(row.nodes + [PlannedNode(q)]))] else []
  }

  predicate Operable(row: Row) { row.status.Active? || row.status.RecoveryRequired? }

  predicate ApprovalPending(row: Row, n: nat) {
    && Operable(row) && n < |row.nodes|
    && row.nodes[n].approvalRequired
    && (row.nodes[n].status.WaitingApproval? || row.nodes[n].status.Rejected?)
  }

  function ApprovedNode(node: Node, approved: bool, nodes: seq<Node>): Node {
    if !approved then node.(approval := Refused, status := Rejected)
    else node.(approval := Approved,
               status := if Dependency(node.deps, nodes).DepReady? then Ready else WaitingDependency)
  }

  function ApproveProgram(row: Row, n: nat, approved: bool): seq<Event> {
    if !ApprovalPending(row, n) then []
    else
      var save := [SaveNodes(row.nodes[n := ApprovedNode(row.nodes[n], approved, row.nodes)])];
      if !approved then [SetStatus(RecoveryRequired)] + save
      else if row.status.RecoveryRequired? then [SetStatus(Active)] + save
      else save
  }

  predicate RetryAllowed(row: Row, n: nat, force: bool) {
    && Operable(row) && n < |row.nodes|
    && Stops(row.nodes[n].status)
    && (row.nodes[n].uncertain ==> force)
  }

  function RetriedNode(node: Node, nodes: seq<Node>): Node {
    if node.approvalRequired && !node.approval.Approved?
    then node.(approval := Pending, status := WaitingApproval, uncertain := false)
    else node.(status := if Dependency(node.deps, nodes).DepReady? then Ready else WaitingDependency,
               uncertain := false)
  }

  function RetryProgram(row: Row, n: nat, force: bool): seq<Event> {
    if RetryAllowed(row, n, force)
    then [SetStatus(Active), SaveNodes(Refresh(row.nodes[n := RetriedNode(row.nodes[n], row.nodes)]))]
    else []
  }

  predicate AllCompleted(nodes: seq<Node>) { forall n :: n in nodes ==> n.status.Completed? }

  function CommitProgram(row: Row): seq<Event> {
    if row.status.Active? && AllCompleted(row.nodes) then [SetStatus(Committed)] else []
  }

  // ---- run_ready_steps ----

  /** Positions of the READY nodes, in insertion order. */
  function ReadyNodes(nodes: seq<Node>): (r: seq<nat>)
    ensures forall i :: 0 <= i < |r| ==> r[i] < |nodes| && nodes[r[i]].status.Ready?
    ensures forall n :: 0 <= n < |nodes| && nodes[n].status.Ready? ==> n in r
    ensures Distinct(r)
  {
    if nodes == [] then []
    else
      var init := ReadyNodes(nodes[..|nodes| - 1]);
      if nodes[|nodes| - 1].status.Ready? then init + [|nodes| - 1] else init
  }

  ghost predicate Ascending(r: seq<nat>) { forall i, j :: 0 <= i < j < |r| ==> r[i] < r[j] }

  lemma {:induction false} ReadyInOrder(nodes: seq<Node>)
    ensures Ascending(ReadyNodes(nodes))
  {
    if nodes != [] {
      var init := ReadyNodes(nodes[..|nodes| - 1]);
      ReadyInOrder(nodes[..|nodes| - 1]);
      assert forall i :: 0 <= i < |init| ==> init[i] < |nodes| - 1;
    }
  }

  function Min(a: int, b: int): int { if a <= b then a else b }

  /** The local state of the loop that prepares one wave. */
  datatype Prep = Prep(nodes: seq<Node>, steps: seq<Step>, events: seq<Event>, prepared: seq<nat>, aborted: bool)

  function PrepareOne(p: Prep, n: nat, w: nat, o: Oracle): (q: Prep)
    requires n < |p.nodes|
    ensures |q.nodes| == |p.nodes|
  {
    var node := p.nodes[n];
    if !o.resolves(w, n) then p.(aborted := true)
    else if !o.valid(w, n) then p.(nodes := p.nodes[n := node.(status := NodeStatus.Failed)])
    else if node.stepNo.Some? then
      var k := node.stepNo.value;
      if k >= |p.steps| then p.(nodes := p.nodes[n := node.(status := NodeStatus.Failed)])
      else p.(nodes := p.nodes[n := node.(status := NodeStatus.Executing)],
              steps := p.steps[k := p.steps[k].(status := StepStatus.Executing)],
              events := p.events + [Mark(k, StepStatus.Executing)],
              prepared := p.prepared + [n])
    else
      p.(nodes := p.nodes[n := node.(status := NodeStatus.Executing, stepNo := Some(|p.steps|))],
         steps := p.steps + [FreshStep(node.contract)],
         events := p.events + [Write(NewStep(FreshStep(node.contract)))],
         prepared := p.prepared + [n])
  }

  function Prepare(p: Prep, wave: seq<nat>, w: nat, o: Oracle): (q: Prep)
    requires forall i :: 0 <= i < |wave| ==> wave[i] < |p.nodes|
    ensures |q.nodes| == |p.nodes|
    decreases |wave|
  {
    if wave == [] || p.aborted then p else Prepare(PrepareOne(p, wave[0], w, o), wave[1..], w, o)
  }

  function StepOf(nodes: seq<Node>, n: nat): nat {
    if n < |nodes| && nodes[n].stepNo.Some? then nodes[n].stepNo.value else 0
  }

  /** The attempts a wave has to make: each member's up to its first success. */
  function Due(prepared: seq<nat>, w: nat, o: Oracle): (r: seq<nat>)
    ensures forall n :: n in r ==> n in prepared
  {
    if prepared == [] then []
    else seq(TriesFrom(1, o.member(w, prepared[0])), _ => prepared[0]) + Due(prepared[1..], w, o)
  }

  /** The attempts in the order in which they happen to be made, any order being possible. */
  function Interleaved(due: seq<nat>, w: nat, i: nat, o: Oracle): (r: seq<nat>)
    ensures |r| == |due| && forall n :: n in r ==> n in due
    decreases |due|
  {
    if due == [] then []
    else
      var j := o.pick(w, i) % |due|;
      [due[j]] + Interleaved(due[..j] + due[j + 1..], w, i + 1, o)
  }

  function CallOrder(prepared: seq<nat>, w: nat, o: Oracle): seq<nat> { Interleaved(Due(prepared, w, o), w, 0, o) }

  /** The forward calls of the nodes listed, in that order. */
  function Invocations(nodes: seq<Node>, order: seq<nat>): (r: seq<Event>)
    ensures |r| == |order|
    ensures forall i :: 0 <= i < |order| ==> r[i] == Call(nodes, order[i])
  {
    seq(|order|, i requires 0 <= i < |order| => Call(nodes, order[i]))
  }

  function Call(nodes: seq<Node>, n: nat): Event { Invoke(Some(n), StepOf(nodes, n)) }

  function Finished(node: Node, success: bool): Node {
    node.(status := if success then NodeStatus.Completed else NodeStatus.Failed, uncertain := false)
  }

  function FinishedNodes(nodes: seq<Node>, prepared: seq<nat>, w: nat, o: Oracle): (r: seq<Node>)
    ensures |r| == |nodes|
    ensures forall n :: 0 <= n < |nodes| ==>
      r[n] == if n in prepared then Finished(nodes[n], o.Succeeds(w, n)) else nodes[n]
  {
    seq(|nodes|, n requires 0 <= n < |nodes| =>
      if n in prepared then Finished(nodes[n], o.Succeeds(w, n)) else nodes[n])
  }

  function FinishEvent(nodes: seq<Node>, n: nat, w: nat, o: Oracle): Event {
    Mark(StepOf(nodes, n), if o.Succeeds(w, n) then StepStatus.Completed else StepStatus.Failed)
  }

  function FinishEvents(nodes: seq<Node>, prepared: seq<nat>, w: nat, o: Oracle): (r: seq<Event>)
    ensures |r| == |prepared|
    ensures forall i :: 0 <= i < |prepared| ==> r[i] == FinishEvent(nodes, prepared[i], w, o)
  {
    seq(|prepared|, i requires 0 <= i < |prepared| => FinishEvent(nodes, prepared[i], w, o))
  }

  predicate SomeFailed(prepared: seq<nat>, w: nat, o: Oracle) {
    exists n :: n in prepared && !o.Succeeds(w, n)
  }

  predicate RollsBack(node: Node) { node.contract.failureMode == Some(Rollback) }

  predicate RollbackAfter(nodes: seq<Node>, prepared: seq<nat>, w: nat, o: Oracle) {
    exists n :: n in prepared && n < |nodes| && !o.Succeeds(w, n) && RollsBack(nodes[n])
  }

  /** How a wave ends: nothing was ready; a contract did not resolve and the call raised;
      every member failed re-validation; some action failed; or all went well. */
  datatype Verdict = Idle | Aborted | Stuck | WaveFailed | Continued

  datatype Wave = Wave(verdict: Verdict, events: seq<Event>, prepared: seq<nat>)

  /** The state of the preparation loop of a wave when it ends. */
  function Prepared(row: Row, maxParallel: int, budget: int, w: nat, o: Oracle): Prep
    requires maxParallel >= 1 && budget >= 1
  {
    var nodes := Refresh(row.nodes);
    var ready := ReadyNodes(nodes);
    Prepare(Prep(nodes, row.steps, [], [], false), ready[..Min(Min(maxParallel, budget), |ready|)], w, o)
  }

  function DoneNodes(nodes: seq<Node>, prepared: seq<nat>, w: nat, o: Oracle): (r: seq<Node>)
    ensures |r| == |nodes|
  {
    Refresh(FinishedNodes(nodes, prepared, w, o))
  }

  /** Forward calls of a prepared wave, then the recording of their results. */
  function Execution(nodes: seq<Node>, prepared: seq<nat>, w: nat, o: Oracle): seq<Event>
    requires prepared != []
  {
    Invocations(nodes, CallOrder(prepared, w, o)) + FinishEvents(nodes, prepared, w, o)
    + [SaveNodes(DoneNodes(nodes, prepared, w, o))]
  }

  function FailureStatus(nodes: seq<Node>, prepared: seq<nat>, w: nat, o: Oracle): SagaStatus {
    if RollbackAfter(nodes, prepared, w, o) then SagaStatus.Failed else RecoveryRequired
  }

  function RunWave(row: Row, maxParallel: int, budget: int, w: nat, o: Oracle): (r: Wave)
    requires maxParallel >= 1 && budget >= 1
  {
    if ReadyNodes(Refresh(row.nodes)) == [] then Wave(Idle, [SaveNodes(Refresh(row.nodes))], [])
    else
      var p := Prepared(row, maxParallel, budget, w, o);
      if p.aborted then Wave(Aborted, p.events, p.prepared)
      else if p.prepared == [] then Wave(Stuck, p.events + [SaveNodes(p.nodes)], [])
      else
        var ran := p.events + [SaveNodes(p.nodes)] + Execution(p.nodes, p.prepared, w, o);
        if SomeFailed(p.prepared, w, o)
        then Wave(WaveFailed, ran + [SetStatus(FailureStatus(p.nodes, p.prepared, w, o))], p.prepared)
        else Wave(Continued, ran, p.prepared)
  }

  predicate RunAllowed(row: Row, maxParallel: int, maxSteps: int) {
    1 <= maxParallel <= 32 && 1 <= maxSteps <= 1000 && row.status.Active?
  }

  type Waves = (Row, int, nat) -> Wave

  /** The wave loop: wave after wave on what is left of the budget, until one does not continue. */
  function Loop(f: Waves, row: Row, budget: int, w: nat): seq<Event>
    decreases budget
  {
    if budget <= 0 then []
    else
      var wave := f(row, budget, w);
      if wave.verdict.Continued? && |wave.prepared| > 0
      then wave.events + Loop(f, RunRow(row, wave.events), budget - |wave.prepared|, w + 1)
      else wave.events
  }

  /** The nodes the loop starts, in order. */
  function LoopStarted(f: Waves, row: Row, budget: int, w: nat): seq<nat>
    decreases budget
  {
    if budget <= 0 then []
    else
      var wave := f(row, budget, w);
      if wave.verdict.Continued? && |wave.prepared| > 0
      then wave.prepared + LoopStarted(f, RunRow(row, wave.events), budget - |wave.prepared|, w + 1)
      else wave.prepared
  }

  function WavesOf(maxParallel: int, o: Oracle): Waves
    requires maxParallel >= 1
  {
    (row: Row, budget: int, w: nat) =>
      if budget >= 1 then RunWave(row, maxParallel, budget, w, o) else Wave(Idle, [], [])
  }

  function RunProgram(row: Row, maxParallel: int, maxSteps: int, o: Oracle): seq<Event> {
    if RunAllowed(row, maxParallel, maxSteps) then Loop(WavesOf(maxParallel, o), row, maxSteps, 0) else []
  }

  // ---- rollback ----

  /** Positions of the steps to compensate, newest first. */
  function Listed(steps: seq<Step>): (r: seq<nat>)
    ensures forall i :: 0 <= i < |r| ==> r[i] < |steps| && !steps[r[i]].status.Compensated?
    ensures forall k :: 0 <= k < |steps| && !steps[k].status.Compensated? ==> k in r
    ensures forall i, j :: 0 <= i < j < |r| ==> r[i] > r[j]
  {
    if steps == [] then []
    else
      var rest := Listed(steps[..|steps| - 1]);
      if steps[|steps| - 1].status.Compensated? then rest else [|steps| - 1] + rest
  }

  /** Attempts `i`, `i + 1`, ... of one compensation; `last` is the message of the attempt before. */
  function CompensateFrom(k: nat, i: nat, maxAttempts: int, attempt: nat -> Outcome, last: string): seq<Event>
    requires i >= 1
    decreases maxAttempts - i + 1
  {
    if i > maxAttempts then
      if last != "" then [Write(SetStep(k, StepStatus.CompensationFailed, Some(i - 1)))] else [Slip(k)]
    else match attempt(i)
      case Succeeded => [Compensate(k, true), Write(SetStep(k, StepStatus.Compensated, Some(i)))]
      case Raised(message) => [Compensate(k, false)] + CompensateFrom(k, i + 1, maxAttempts, attempt, message)
  }

  function RepairOne(k: nat, r: Repair): seq<Event> {
    match r
    case Unresolvable => [Mark(k, StepStatus.CompensationFailed)]
    case Resolved(maxAttempts, attempt) => CompensateFrom(k, 1, maxAttempts, attempt, "")
  }

  function Repairs(ks: seq<nat>, o: Oracle): seq<Event> {
    if ks == [] then [] else RepairOne(ks[0], o.repair(ks[0])) + Repairs(ks[1..], o)
  }

  predicate Undone(r: Repair) {
    r.Resolved? && exists i :: 1 <= i <= r.maxAttempts && r.attempt(i).Succeeded?
  }

  /** No attempt succeeds, and the error the loop ends with is empty: it is taken for no error. */
  predicate Slips(r: Repair) {
    && r.Resolved?
    && (forall i :: 1 <= i <= r.maxAttempts ==> r.attempt(i).Raised?)
    && (r.maxAttempts >= 1 ==> r.attempt(r.maxAttempts).message == "")
  }

  /** The pass records a failure for this step. */
  predicate Fails(r: Repair) { !Undone(r) && !Slips(r) }

  predicate AnyFails(ks: seq<nat>, o: Oracle) { exists k :: k in ks && Fails(o.repair(k)) }

  function Mirrored(node: Node, steps: seq<Step>): Node {
    if node.stepNo.None? || node.stepNo.value >= |steps| then node
    else match steps[node.stepNo.value].status
      case Compensated => node.(status := NodeStatus.Compensated)
      case CompensationFailed => node.(status := NodeStatus.CompensationFailed)
      case _ => node
  }

  function MirrorNodes(nodes: seq<Node>, steps: seq<Step>): (r: seq<Node>)
    ensures |r| == |nodes|
  {
    seq(|nodes|, n requires 0 <= n < |nodes| => Mirrored(nodes[n], steps))
  }

  function RollbackProgram(row: Row, o: Oracle): seq<Event> {
    if row.status.Committed? || row.status.RolledBack? then []
    else
      var ks := Listed(row.steps);
      var undo := [SetStatus(RollingBack)] + Repairs(ks, o);
      undo + [Write(SetSaga(Some(if AnyFails(ks, o) then RollbackFailed else RolledBack),
                            Some(MirrorNodes(row.nodes, RunRow(row, undo).steps))))]
  }

  /** What is left of a pass when ROLLING_BACK is written: the steps are listed only then, from a row
      that may have changed meanwhile. */
  function RollbackTail(row: Row, o: Oracle): seq<Event> {
    RollbackProgram(row.(status := RollingBack), o)[1..]
  }

  /** Listed at once, they are the ones of the row first read. */
  lemma ListedAtOnce(row: Row, o: Oracle)
    requires !row.status.Committed? && !row.status.RolledBack?
    ensures RollbackProgram(row, o) == [SetStatus(RollingBack)] + RollbackTail(After(row, SetStatus(RollingBack)), o)
  {
    var undo := [SetStatus(RollingBack)] + Repairs(Listed(row.steps), o);
    assert RunRow(row, undo) == RunRow(row.(status := RollingBack), undo);
  }

  // ---- resume_pending_rollbacks, one claimed saga ----

  predicate InFlight(node: Node) { node.status.Executing? }

  predicate NeedsOperator(nodes: seq<Node>) {
    exists n :: n in nodes && InFlight(n) && !RollsBack(n)
  }

  function Escalated(nodes: seq<Node>): (r: seq<Node>)
    ensures |r| == |nodes|
  {
    seq(|nodes|, n requires 0 <= n < |nodes| =>
      if InFlight(nodes[n]) then nodes[n].(status := NodeStatus.Failed, uncertain := true) else nodes[n])
  }

  function RecoverProgram(row: Row, o: Oracle): seq<Event> {
    if NeedsOperator(row.nodes)
    then [Write(SetSaga(Some(RecoveryRequired), Some(Escalated(row.nodes))))]
    else RollbackProgram(row, o)
  }

  datatype Op =
    | Execute(contract: Option<Contract>)
    | Plan(request: PlanRequest)
    | Approve(node: nat, approved: bool)
    | Retry(node: nat, force: bool)
    | RunReady(maxParallel: int, maxSteps: int)
    | Commit
    | RollBack
    | Recover

  function Program(op: Op, row: Row, o: Oracle): seq<Event> {
    match op
    case Execute(contract) => ExecuteProgram(row, contract, o)
    case Plan(request) => PlanProgram(row, request)
    case Approve(n, approved) => ApproveProgram(row, n, approved)
    case Retry(n, force) => RetryProgram(row, n, force)
    case RunReady(maxParallel, maxSteps) => RunProgram(row, maxParallel, maxSteps, o)
    case Commit => CommitProgram(row)
    case RollBack => RollbackProgram(row, o)
    case Recover => RecoverProgram(row, o)
  }
}
