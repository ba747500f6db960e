/** Compensation in reverse order, and crash recovery, keep the book good at every cut. */
module RollbackSafety {
  import opened Types
  import opened AbstractStore
  import opened Engine
  import opened Programs
  import opened Ledger

  // ---- one compensation loop ----

  /** How the attempts from `i` on end, given the message of the attempt before. */
  datatype LoopEnd = EndsUndone | EndsFailed | EndsSlipped

  function EndOf(i: nat, maxAttempts: int, attempt: nat -> Outcome, last: string): LoopEnd
    decreases maxAttempts - i + 1
  {
    if i > maxAttempts then (if last != "" then EndsFailed else EndsSlipped)
    else match attempt(i)
      case Succeeded => EndsUndone
      case Raised(message) => EndOf(i + 1, maxAttempts, attempt, message)
  }

  function RepairEnd(r: Repair): LoopEnd {
    match r
    case Unresolvable => EndsFailed
    case Resolved(maxAttempts, attempt) => EndOf(1, maxAttempts, attempt, "")
  }

  /** The attempts made from the `i`-th on. */
  function MadeFrom(i: nat, maxAttempts: int, attempt: nat -> Outcome): nat
    decreases maxAttempts - i + 1
  {
    if i > maxAttempts then 0
    else if attempt(i).Succeeded? then 1
    else 1 + MadeFrom(i + 1, maxAttempts, attempt)
  }

  /** The number of attempts recorded on the step; none is when the loop slips. */
  function LoopRecord(i: nat, maxAttempts: int, attempt: nat -> Outcome, last: string): Option<nat>
    requires i >= 1
  {
    if EndOf(i, maxAttempts, attempt, last).EndsSlipped? then None else Some(i - 1 + MadeFrom(i, maxAttempts, attempt))
  }

  function RepairRecord(r: Repair): Option<nat> {
    match r
    case Unresolvable => None
    case Resolved(maxAttempts, attempt) => LoopRecord(1, maxAttempts, attempt, "")
  }

  lemma {:induction false} EndOfMeaning(i: nat, maxAttempts: int, attempt: nat -> Outcome, last: string)
    ensures EndOf(i, maxAttempts, attempt, last).EndsUndone? <==>
            exists j :: i <= j <= maxAttempts && attempt(j).Succeeded?
    ensures EndOf(i, maxAttempts, attempt, last).EndsSlipped? <==>
              && (forall j :: i <= j <= maxAttempts ==> attempt(j).Raised?)
              && (if i <= maxAttempts then attempt(maxAttempts).Raised? && attempt(maxAttempts).message == ""
                  else last == "")
    decreases maxAttempts - i + 1
  {
    if i <= maxAttempts && attempt(i).Raised? {
      EndOfMeaning(i + 1, maxAttempts, attempt, attempt(i).message);
    }
  }

  /** A repair ends undone, failed or slipped exactly when its attempts say so. */
  lemma RepairEndMeaning(r: Repair)
    ensures RepairEnd(r).EndsUndone? <==> Undone(r)
    ensures RepairEnd(r).EndsSlipped? <==> Slips(r)
    ensures RepairEnd(r).EndsFailed? <==> Fails(r)
  {
    if r.Resolved? {
      EndOfMeaning(1, r.maxAttempts, r.attempt, "");
    }
  }

  function EndStatus(end: LoopEnd, before: StepStatus): StepStatus {
    match end
    case EndsUndone => StepStatus.Compensated
    case EndsFailed => StepStatus.CompensationFailed
    case EndsSlipped => before
  }

  /** `c` differs from `b` only in step `k`, the history and the slip flag. */
  ghost predicate OnlyStep(b: Book, c: Book, k: nat, end: LoopEnd, record: Option<nat>) {
    && k < |b.row.steps| == |c.row.steps|
    && c.row.status == b.row.status && c.row.nodes == b.row.nodes
    && (forall j :: 0 <= j < |b.row.steps| && j != k ==> c.row.steps[j] == b.row.steps[j])
    && c.row.steps[k].status == EndStatus(end, b.row.steps[k].status)
    && c.row.steps[k].contract == b.row.steps[k].contract
    && c.row.steps[k].compensationAttempts ==
         (if record.Some? then record.value else b.row.steps[k].compensationAttempts)
    && c.slipped == (b.slipped || end.EndsSlipped?)
    && c.strays == b.strays && c.tracked == b.tracked
  }

  lemma UndoSafe(b: Book, k: nat, i: nat)
    requires Good(b) && b.row.status.RollingBack? && k < |b.row.steps| && !b.row.steps[k].status.Compensated?
    ensures var events := [Compensate(k, true), Write(SetStep(k, StepStatus.Compensated, Some(i)))];
      Safe(b, events) && OnlyStep(b, RunBook(b, events), k, EndsUndone, Some(i))
  {
    var first, second := [Compensate(k, true)], [Write(SetStep(k, StepStatus.Compensated, Some(i)))];
    CallSafe(b, Compensate(k, true));
    SafeEnd(b, first);
    MarkSafe(RunBook(b, first), k, StepStatus.Compensated, Some(i));
    SafeAppend(b, first, second);
    assert first + second == [Compensate(k, true), Write(SetStep(k, StepStatus.Compensated, Some(i)))];
  }

  lemma {:induction false} CompensateSafe(b: Book, k: nat, i: nat, maxAttempts: int, attempt: nat -> Outcome,
                                          last: string)
    requires Good(b) && b.row.status.RollingBack? && k < |b.row.steps| && !b.row.steps[k].status.Compensated? && i >= 1
    ensures Safe(b, CompensateFrom(k, i, maxAttempts, attempt, last))
    ensures OnlyStep(b, RunBook(b, CompensateFrom(k, i, maxAttempts, attempt, last)), k,
                     EndOf(i, maxAttempts, attempt, last), LoopRecord(i, maxAttempts, attempt, last))
    decreases maxAttempts - i + 1
  {
    if i > maxAttempts {
      if last != "" {
        MarkSafe(b, k, StepStatus.CompensationFailed, Some(i - 1));
      } else {
        SlipSafe(b, k);
      }
    } else {
      match attempt(i)
      case Succeeded => UndoSafe(b, k, i);
      case Raised(message) =>
        CallSafe(b, Compensate(k, false));
        SafeEnd(b, [Compensate(k, false)]);
        var c := b.(log := b.log + [Compensate(k, false)]);
        CompensateSafe(c, k, i + 1, maxAttempts, attempt, message);
        SafeAppend(b, [Compensate(k, false)], CompensateFrom(k, i + 1, maxAttempts, attempt, message));
    }
  }

  lemma RepairSafe(b: Book, k: nat, r: Repair)
    requires Good(b) && b.row.status.RollingBack? && k < |b.row.steps| && !b.row.steps[k].status.Compensated?
    ensures Safe(b, RepairOne(k, r))
    ensures OnlyStep(b, RunBook(b, RepairOne(k, r)), k, RepairEnd(r), RepairRecord(r))
  {
    match r
    case Unresolvable => MarkSafe(b, k, StepStatus.CompensationFailed, None);
    case Resolved(maxAttempts, attempt) => CompensateSafe(b, k, 1, maxAttempts, attempt, "");
  }

  // ---- the whole pass ----

  /** `c` differs from `b` only in the steps listed, each ended as its repair says. */
  ghost predicate Repaired(b: Book, c: Book, ks: seq<nat>, o: Oracle) {
    && |b.row.steps| == |c.row.steps|
    && c.row.status == b.row.status && c.row.nodes == b.row.nodes
    && (forall k :: 0 <= k < |b.row.steps| ==> RepairedStep(b.row.steps[k], c.row.steps[k], k in ks, o.repair(k)))
    && c.slipped == (b.slipped || exists k :: k in ks && Slips(o.repair(k)))
    && c.strays == b.strays && c.tracked == b.tracked
  }

  predicate RepairedStep(a: Step, z: Step, listed: bool, r: Repair) {
    && a.contract == z.contract
    && z.status == (if listed then EndStatus(RepairEnd(r), a.status) else a.status)
    && z.compensationAttempts ==
         (if listed && RepairRecord(r).Some? then RepairRecord(r).value else a.compensationAttempts)
  }

  lemma RepairedAll(b: Book, c: Book, d: Book, ks: seq<nat>, o: Oracle)
    requires ks != [] && Distinct(ks)
    requires OnlyStep(b, c, ks[0], RepairEnd(o.repair(ks[0])), RepairRecord(o.repair(ks[0])))
    requires Repaired(c, d, ks[1..], o)
    ensures Repaired(b, d, ks, o)
  {
    RepairEndMeaning(o.repair(ks[0]));
    assert forall j :: j in ks <==> j == ks[0] || j in ks[1..];
    forall k | 0 <= k < |b.row.steps| ensures RepairedStep(b.row.steps[k], d.row.steps[k], k in ks, o.repair(k)) {
      assert RepairedStep(c.row.steps[k], d.row.steps[k], k in ks[1..], o.repair(k));
    }
  }

  lemma {:induction false} RepairsSafe(b: Book, ks: seq<nat>, o: Oracle)
    requires Good(b) && b.row.status.RollingBack?
    requires Distinct(ks)
    requires forall i :: 0 <= i < |ks| ==> ks[i] < |b.row.steps| && !b.row.steps[ks[i]].status.Compensated?
    ensures Safe(b, Repairs(ks, o))
    ensures Repaired(b, RunBook(b, Repairs(ks, o)), ks, o)
    decreases |ks|
  {
    if ks != [] {
      var k := ks[0];
      RepairSafe(b, k, o.repair(k));
      SafeEnd(b, RepairOne(k, o.repair(k)));
      var c := RunBook(b, RepairOne(k, o.repair(k)));
      RepairsSafe(c, ks[1..], o);
      SafeAppend(b, RepairOne(k, o.repair(k)), Repairs(ks[1..], o));
      RepairedAll(b, c, RunBook(b, Repairs(ks, o)), ks, o);
    }
  }

  /** The state in which the final write of a rollback finds the saga. */
  function Unwound(b: Book, o: Oracle): Book {
    RunBook(b, [SetStatus(RollingBack)] + Repairs(Listed(b.row.steps), o))
  }

  lemma BeginUnwinding(b: Book, o: Oracle)
    requires Good(b) && !Terminal(b.row.status)
    ensures Safe(b, [SetStatus(RollingBack)] + Repairs(Listed(b.row.steps), o))
    ensures Repaired(b.(row := b.row.(status := RollingBack)), Unwound(b, o), Listed(b.row.steps), o)
    ensures Good(Unwound(b, o))
  {
    SaveSafe(b, Some(RollingBack), None);
    SafeEnd(b, [SetStatus(RollingBack)]);
    var c := b.(row := b.row.(status := RollingBack));
    assert RunBook(b, [SetStatus(RollingBack)]) == c;
    RepairsSafe(c, Listed(b.row.steps), o);
    SafeAppend(b, [SetStatus(RollingBack)], Repairs(Listed(b.row.steps), o));
    SafeEnd(b, [SetStatus(RollingBack)] + Repairs(Listed(b.row.steps), o));
  }

  /** Mirroring keeps the plan invariant: it only moves nodes to the two compensation states. */
  lemma MirrorKeepsPlan(nodes: seq<Node>, steps: seq<Step>)
    requires PlanOk(nodes, |steps|)
    ensures PlanOk(MirrorNodes(nodes, steps), |steps|)
    ensures NodesEvolve(nodes, MirrorNodes(nodes, steps))
  {
    var g := MirrorNodes(nodes, steps);
    assert forall i :: 0 <= i < |nodes| ==> g[i] == Mirrored(nodes[i], steps);
    assert forall i :: 0 <= i < |nodes| ==>
             g[i].stepNo == nodes[i].stepNo && g[i].deps == nodes[i].deps && g[i].key == nodes[i].key;
  }

  /** After a pass in which nothing slipped, no node is in flight once mirrored. */
  lemma MirrorLandsEverything(b: Book, o: Oracle)
    requires Good(b) && !Terminal(b.row.status) && !Unwound(b, o).slipped
    ensures NoneInFlight(MirrorNodes(b.row.nodes, Unwound(b, o).row.steps))
    ensures !AnyFails(Listed(b.row.steps), o) ==>
      AllUndone(Unwound(b, o).row.steps) && NodesUndone(MirrorNodes(b.row.nodes, Unwound(b, o).row.steps))
  {
    BeginUnwinding(b, o);
    var steps := Unwound(b, o).row.steps;
    var ks := Listed(b.row.steps);
    forall k | 0 <= k < |steps|
      ensures steps[k].status.Compensated? || (steps[k].status.CompensationFailed? && AnyFails(ks, o))
    {
      RepairEndMeaning(o.repair(k));
      assert RepairedStep(b.row.steps[k], steps[k], k in ks, o.repair(k));
      assert k in ks ==> !Slips(o.repair(k));
    }
    forall i | 0 <= i < |b.row.nodes| ensures !InFlight(MirrorNodes(b.row.nodes, steps)[i]) {
      assert MirrorNodes(b.row.nodes, steps)[i] == Mirrored(b.row.nodes[i], steps);
    }
  }

  lemma RollbackSafe(b: Book, o: Oracle)
    requires Good(b)
    ensures Safe(b, RollbackProgram(b.row, o))
  {
    if !Terminal(b.row.status) {
      var undo := [SetStatus(RollingBack)] + Repairs(Listed(b.row.steps), o);
      var c := Unwound(b, o);
      BeginUnwinding(b, o);
      RowOfBook(b, undo);
      var status := if AnyFails(Listed(b.row.steps), o) then RollbackFailed else RolledBack;
      MirrorKeepsPlan(c.row.nodes, c.row.steps);
      if !c.slipped { MirrorLandsEverything(b, o); }
      SaveSafe(c, Some(status), Some(MirrorNodes(c.row.nodes, c.row.steps)));
      SafeAppend(b, undo, [Write(SetSaga(Some(status), Some(MirrorNodes(c.row.nodes, c.row.steps))))]);
    }
  }

  lemma EscalateKeepsPlan(nodes: seq<Node>, steps: nat)
    requires PlanOk(nodes, steps)
    ensures PlanOk(Escalated(nodes), steps)
    ensures NodesEvolve(nodes, Escalated(nodes))
    ensures NoneInFlight(Escalated(nodes))
    ensures DependenciesDone(nodes) ==> DependenciesDone(Escalated(nodes))
  {
    var g := Escalated(nodes);
    assert forall i :: 0 <= i < |nodes| ==>
             g[i].stepNo == nodes[i].stepNo && g[i].deps == nodes[i].deps && g[i].key == nodes[i].key;
    if DependenciesDone(nodes) {
      forall i | 0 <= i < |g| && UnderWay(g[i]) ensures AllDone(g[i].deps, g) {
        assert AllDone(nodes[i].deps, nodes);
      }
    }
  }

  /** Recovery of a claimed saga. The escalating branch needs the saga not to be terminal,
      which the claim guarantees. */
  lemma RecoverSafe(b: Book, o: Oracle)
    requires Good(b) && !Terminal(b.row.status)
    ensures Safe(b, RecoverProgram(b.row, o))
  {
    if NeedsOperator(b.row.nodes) {
      EscalateKeepsPlan(b.row.nodes, |b.row.steps|);
      assert !NoneInFlight(b.row.nodes);
      SaveSafe(b, Some(RecoveryRequired), Some(Escalated(b.row.nodes)));
    } else {
      RollbackSafe(b, o);
    }
  }
}
