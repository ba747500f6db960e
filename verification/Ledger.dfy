/** The invariant of a saga row and its effect history, and what it means for a sequence of
    events to keep it at every cut. */
module Ledger {
  import opened Types
  import opened AbstractStore
  import opened Engine
  import opened Programs

  /** A row with its history: the external calls made so far, whether a compensation loop
      ever slipped, and the steps for which a superseded worker made an external call. The
      history is `tracked` when it goes back to the creation of the saga. */
  datatype Book = Book(row: Row, log: seq<Event>, slipped: bool, strays: set<nat>, tracked: bool)

  function StepBook(b: Book, e: Event): Book {
    match e
    case Write(c) => b.(row := Apply(b.row, c))
    case Slip(_) => b.(slipped := true)
    case _ => b.(log := b.log + [e])
  }

  function RunBook(b: Book, events: seq<Event>): Book
    decreases |events|
  {
    if events == [] then b else RunBook(StepBook(b, events[0]), events[1..])
  }

  // ---- the invariant ----

  ghost predicate ApprovalsHold(nodes: seq<Node>) {
    forall i :: 0 <= i < |nodes| && UnderWay(nodes[i]) ==> Cleared(nodes[i])
  }

  predicate UnderWay(node: Node) {
    node.status.Ready? || node.status.Executing? || node.status.Completed?
  }

  ghost predicate DependenciesDone(nodes: seq<Node>) {
    forall i :: 0 <= i < |nodes| && UnderWay(nodes[i]) ==> AllDone(nodes[i].deps, nodes)
  }

  predicate AllDone(deps: seq<nat>, nodes: seq<Node>) {
    forall d :: d in deps ==> d < |nodes| && nodes[d].status.Completed?
  }

  ghost predicate Journaled(nodes: seq<Node>, steps: nat) {
    && (forall i :: 0 <= i < |nodes| && nodes[i].stepNo.Some? ==> nodes[i].stepNo.value < steps)
    && (forall i, j :: 0 <= i < j < |nodes| && nodes[i].stepNo.Some? ==> nodes[i].stepNo != nodes[j].stepNo)
    && (forall i :: 0 <= i < |nodes| && (nodes[i].status.Executing? || nodes[i].status.Completed?) ==>
          nodes[i].stepNo.Some?)
  }

  ghost predicate KeysDistinct(nodes: seq<Node>) {
    forall i, j :: 0 <= i < j < |nodes| && nodes[i].key.Some? ==> nodes[i].key != nodes[j].key
  }

  ghost predicate PlanOk(nodes: seq<Node>, steps: nat) {
    Topological(nodes) && ApprovalsHold(nodes) && Journaled(nodes, steps) && KeysDistinct(nodes)
  }

  ghost predicate NoneInFlight(nodes: seq<Node>) {
    forall i :: 0 <= i < |nodes| ==> !InFlight(nodes[i])
  }

  predicate Unwinding(status: SagaStatus) {
    status.RollingBack? || status.RolledBack? || status.RollbackFailed?
  }

  predicate Terminal(status: SagaStatus) { status.Committed? || status.RolledBack? }

  ghost predicate AllUndone(steps: seq<Step>) {
    forall k :: 0 <= k < |steps| ==> steps[k].status.Compensated?
  }

  /** Every node that ran is COMPENSATED. */
  ghost predicate NodesUndone(nodes: seq<Node>) {
    forall n :: 0 <= n < |nodes| && nodes[n].stepNo.Some? ==> nodes[n].status.Compensated?
  }

  /** Dependency safety: outside rollback it holds outright; while unwinding it holds unless
      nothing is in flight any more. */
  ghost predicate DependencyRule(row: Row) {
    DependenciesDone(row.nodes) || (Unwinding(row.status) && NoneInFlight(row.nodes))
  }

  ghost predicate SettledRule(row: Row) {
    && (row.status.RolledBack? ==> AllUndone(row.steps) && NodesUndone(row.nodes))
    && (row.status.RolledBack? || row.status.RollbackFailed? ==> NoneInFlight(row.nodes))
  }

  predicate Touches(e: Event, k: nat) { (e.Invoke? || e.Compensate?) && e.k == k }

  /** The last external call made for step `k`. */
  function LastOn(log: seq<Event>, k: nat): Option<Event> {
    if log == [] then None
    else if Touches(log[|log| - 1], k) then Some(log[|log| - 1])
    else LastOn(log[..|log| - 1], k)
  }

  /** A COMPENSATED step without stray calls is one whose last external call was a successful compensation. */
  ghost predicate Covered(b: Book) {
    forall k :: 0 <= k < |b.row.steps| && b.row.steps[k].status.Compensated? && k !in b.strays
      ==> LastOn(b.log, k) == Some(Compensate(k, true))
  }

  predicate Links(nodes: seq<Node>, e: Event) {
    e.Invoke? && e.node.Some? ==> e.node.value < |nodes| && nodes[e.node.value].stepNo == Some(e.k)
  }

  /** Every external call was made for a journaled step, and every forward call of a node for
      the one step the node is linked to. */
  ghost predicate Identified(b: Book) {
    forall i :: 0 <= i < |b.log| ==>
      (b.log[i].Invoke? || b.log[i].Compensate?) && b.log[i].k < |b.row.steps| && Links(b.row.nodes, b.log[i])
  }

  ghost predicate Good(b: Book) {
    && PlanOk(b.row.nodes, |b.row.steps|)
    && (b.row.status.Committed? ==> AllCompleted(b.row.nodes))
    && (!b.slipped ==> DependencyRule(b.row) && SettledRule(b.row))
    && (b.tracked ==> Covered(b))
    && Identified(b)
  }

  // ---- what one event may do ----

  ghost predicate NodesEvolve(before: seq<Node>, after: seq<Node>) {
    |before| <= |after| && forall i :: 0 <= i < |before| ==> NodeEvolves(before[i], after[i])
  }

  predicate NodeEvolves(a: Node, b: Node) {
    && a.key == b.key && a.deps == b.deps && a.contract == b.contract && a.approvalRequired == b.approvalRequired
    && (a.stepNo.Some? ==> b.stepNo == a.stepNo)
  }

  ghost predicate Evolves(a: Row, b: Row) {
    && (Terminal(a.status) ==> b.status == a.status)
    && NodesEvolve(a.nodes, b.nodes)
    && |a.steps| <= |b.steps|
    && (forall k :: 0 <= k < |a.steps| ==> a.steps[k].contract == b.steps[k].contract)
  }

  /** External calls are made only for journaled steps that are not compensated, forward ones
      only for the linked step; COMPENSATED is recorded only right after the call that earned it. */
  ghost predicate Allowed(b: Book, e: Event) {
    match e
    case Write(SetStep(k, status, _)) =>
      && k < |b.row.steps|
      && (status.Compensated? && b.tracked && k !in b.strays ==> LastOn(b.log, k) == Some(Compensate(k, true)))
    case Write(_) => true
    case Invoke(_, k) => k < |b.row.steps| && !b.row.steps[k].status.Compensated? && Links(b.row.nodes, e)
    case Compensate(k, _) => k < |b.row.steps| && !b.row.steps[k].status.Compensated?
    case Slip(k) => true
  }

  /** Every cut of the event sequence leaves a good book, and every event is allowed where it happens. */
  ghost predicate Safe(b: Book, events: seq<Event>)
    decreases |events|
  {
    && Good(b)
    && (events != [] ==>
          && Allowed(b, events[0])
          && Evolves(b.row, StepBook(b, events[0]).row)
          && Safe(StepBook(b, events[0]), events[1..]))
  }

  // ---- composition ----

  lemma {:induction false} RunAppend(b: Book, a: seq<Event>, c: seq<Event>)
    ensures RunBook(b, a + c) == RunBook(RunBook(b, a), c)
    decreases |a|
  {
    if a == [] {
      assert a + c == c;
    } else {
      assert (a + c)[1..] == a[1..] + c;
      RunAppend(StepBook(b, a[0]), a[1..], c);
    }
  }

  lemma {:induction false} SafeAppend(b: Book, a: seq<Event>, c: seq<Event>)
    requires Safe(b, a) && Safe(RunBook(b, a), c)
    ensures Safe(b, a + c)
    ensures RunBook(b, a + c) == RunBook(RunBook(b, a), c)
    decreases |a|
  {
    if a == [] {
      assert a + c == c;
    } else {
      assert (a + c)[1..] == a[1..] + c;
      SafeAppend(StepBook(b, a[0]), a[1..], c);
    }
  }

  lemma SafeOne(b: Book, e: Event)
    requires Good(b) && Allowed(b, e) && Evolves(b.row, StepBook(b, e).row) && Good(StepBook(b, e))
    ensures Safe(b, [e])
    ensures RunBook(b, [e]) == StepBook(b, e)
  {
    assert Safe(StepBook(b, e), []);
    assert RunBook(StepBook(b, e), []) == StepBook(b, e);
  }

  lemma {:induction false} SafeEnd(b: Book, events: seq<Event>)
    requires Safe(b, events)
    ensures Good(RunBook(b, events))
    decreases |events|
  {
    if events != [] { SafeEnd(StepBook(b, events[0]), events[1..]); }
  }

  lemma {:induction false} RowOfBook(b: Book, events: seq<Event>)
    ensures RunBook(b, events).row == RunRow(b.row, events)
    decreases |events|
  {
    if events != [] { RowOfBook(StepBook(b, events[0]), events[1..]); }
  }

  /** A write of nodes or status that keeps the row invariant keeps the book good. */
  lemma SaveSafe(b: Book, status: Option<SagaStatus>, nodes: Option<seq<Node>>)
    requires Good(b)
    requires var row := Apply(b.row, SetSaga(status, nodes));
      && Evolves(b.row, row)
      && PlanOk(row.nodes, |row.steps|)
      && (row.status.Committed? ==> AllCompleted(row.nodes))
      && (!b.slipped ==> DependencyRule(row) && SettledRule(row))
    ensures Safe(b, [Write(SetSaga(status, nodes))])
    ensures RunBook(b, [Write(SetSaga(status, nodes))]) == b.(row := Apply(b.row, SetSaga(status, nodes)))
  {
    var e := Write(SetSaga(status, nodes));
    assert Identified(StepBook(b, e));
    SafeOne(b, e);
  }

  // ---- single events ----

  lemma MarkSafe(b: Book, k: nat, status: StepStatus, attempts: Option<nat>)
    requires Good(b) && k < |b.row.steps| && !b.row.status.RolledBack?
    requires status.Compensated? && b.tracked && k !in b.strays ==> LastOn(b.log, k) == Some(Compensate(k, true))
    ensures Safe(b, [Write(SetStep(k, status, attempts))])
    ensures RunBook(b, [Write(SetStep(k, status, attempts))]) == b.(row := Apply(b.row, SetStep(k, status, attempts)))
  {
    var e := Write(SetStep(k, status, attempts));
    var c := StepBook(b, e);
    assert Identified(c);
    if b.tracked { assert Covered(c); }
    assert NodesEvolve(b.row.nodes, c.row.nodes);
    SafeOne(b, e);
  }

  lemma CallSafe(b: Book, e: Event)
    requires Good(b) && (e.Invoke? || e.Compensate?) && Allowed(b, e)
    ensures Safe(b, [e])
    ensures RunBook(b, [e]) == b.(log := b.log + [e])
  {
    var c := StepBook(b, e);
    assert c.log[..|b.log|] == b.log;
    if b.tracked {
      forall j | 0 <= j < |c.row.steps| && c.row.steps[j].status.Compensated?
        ensures LastOn(c.log, j) == LastOn(b.log, j) {}
      assert Covered(c);
    }
    assert Identified(c);
    assert NodesEvolve(b.row.nodes, c.row.nodes);
    SafeOne(b, e);
  }

  lemma SlipSafe(b: Book, k: nat)
    requires Good(b)
    ensures Safe(b, [Slip(k)])
    ensures RunBook(b, [Slip(k)]) == b.(slipped := true)
  {
    assert Identified(StepBook(b, Slip(k)));
    assert NodesEvolve(b.row.nodes, b.row.nodes);
    SafeOne(b, Slip(k));
  }

  lemma NewStepSafe(b: Book, step: Step)
    requires Good(b) && !b.row.status.RolledBack? && !step.status.Compensated?
    ensures Safe(b, [Write(NewStep(step))])
    ensures RunBook(b, [Write(NewStep(step))]) == b.(row := Apply(b.row, NewStep(step)))
  {
    var e := Write(NewStep(step));
    var c := StepBook(b, e);
    assert Identified(c);
    if b.tracked { assert Covered(c); }
    assert NodesEvolve(b.row.nodes, c.row.nodes);
    SafeOne(b, e);
  }

  // ---- runs of like events ----

  predicate IsMark(e: Event, steps: nat) {
    e.Write? && e.change.SetStep? && e.change.k < steps && !e.change.stepStatus.Compensated?
  }

  /** Recording any step outcomes short of COMPENSATED. */
  lemma {:induction false} MarksSafe(b: Book, events: seq<Event>)
    requires Good(b) && !b.row.status.RolledBack?
    requires forall i :: 0 <= i < |events| ==> IsMark(events[i], |b.row.steps|)
    ensures Safe(b, events)
    ensures RunBook(b, events) == b.(row := b.row.(steps := RunRow(b.row, events).steps))
    ensures |RunRow(b.row, events).steps| == |b.row.steps|
    decreases |events|
  {
    if events != [] {
      var first, rest := [events[0]], events[1..];
      MarkSafe(b, events[0].change.k, events[0].change.stepStatus, events[0].change.attempts);
      SafeEnd(b, first);
      MarksSafe(StepBook(b, events[0]), rest);
      SafeAppend(b, first, rest);
      assert events == first + rest;
    }
  }

  /** A burst of external calls, each allowed at the start. */
  lemma {:induction false} CallsSafe(b: Book, events: seq<Event>)
    requires Good(b)
    requires forall i :: 0 <= i < |events| ==> (events[i].Invoke? || events[i].Compensate?) && Allowed(b, events[i])
    ensures Safe(b, events)
    ensures RunBook(b, events) == b.(log := b.log + events)
    decreases |events|
  {
    if events != [] {
      var first, rest := [events[0]], events[1..];
      CallSafe(b, events[0]);
      SafeEnd(b, first);
      var c := b.(log := b.log + first);
      assert forall i :: 0 <= i < |rest| ==> Allowed(b, rest[i]) ==> Allowed(c, rest[i]);
      CallsSafe(c, rest);
      SafeAppend(b, first, rest);
      assert events == first + rest;
      assert b.log + first + rest == b.log + events;
    } else {
      assert b.log + events == b.log;
    }
  }
}
