/** What one rollback pass does and how it ends, and what a recovery pass leaves behind. */
module RollbackResults {
  import opened Types
  import opened AbstractStore
  import opened Engine
  import opened Programs
  import opened Ledger
  import opened RollbackSafety

  // ---- the order and number of compensation calls ----

  /** How many compensation calls are made for step `k`. */
  function CallsOn(events: seq<Event>, k: nat): nat {
    if events == [] then 0
    else (if events[0].Compensate? && events[0].k == k then 1 else 0) + CallsOn(events[1..], k)
  }

  lemma {:induction false} CallsOnAppend(a: seq<Event>, c: seq<Event>, k: nat)
    ensures CallsOn(a + c, k) == CallsOn(a, k) + CallsOn(c, k)
  {
    if a == [] {
      assert a + c == c;
    } else {
      assert (a + c)[1..] == a[1..] + c;
      CallsOnAppend(a[1..], c, k);
    }
  }

  /** Calls go from newer steps to older ones, and a step that was undone is not called again. */
  ghost predicate NewestFirst(events: seq<Event>) {
    forall i, j :: 0 <= i < j < |events| && events[i].Compensate? && events[j].Compensate?
      ==> events[j].k <= events[i].k && (events[j].k == events[i].k ==> !events[i].ok)
  }

  ghost predicate CallsWithin(events: seq<Event>, ks: seq<nat>) {
    forall i :: 0 <= i < |events| && events[i].Compensate? ==> events[i].k in ks
  }

  lemma {:induction false} LoopCalls(k: nat, i: nat, maxAttempts: int, attempt: nat -> Outcome, last: string)
    requires i >= 1
    ensures var events := CompensateFrom(k, i, maxAttempts, attempt, last);
      && NewestFirst(events) && CallsWithin(events, [k])
      && CallsOn(events, k) == MadeFrom(i, maxAttempts, attempt)
      && (i > maxAttempts ==> CallsOn(events, k) == 0)
      && (i <= maxAttempts ==> 1 <= CallsOn(events, k) <= maxAttempts - i + 1)
    decreases maxAttempts - i + 1
  {
    if i <= maxAttempts {
      match attempt(i)
      case Succeeded =>
        assert CallsOn([Write(SetStep(k, StepStatus.Compensated, Some(i)))], k) == 0;
      case Raised(message) => LoopCalls(k, i + 1, maxAttempts, attempt, message);
    }
  }

  function Allowance(r: Repair): nat {
    if r.Resolved? && r.maxAttempts >= 1 then r.maxAttempts else 0
  }

  function CallsMade(r: Repair): nat { if r.Resolved? then MadeFrom(1, r.maxAttempts, r.attempt) else 0 }

  lemma RepairCalls(k: nat, r: Repair)
    ensures NewestFirst(RepairOne(k, r)) && CallsWithin(RepairOne(k, r), [k])
    ensures CallsOn(RepairOne(k, r), k) == CallsMade(r)
    ensures CallsOn(RepairOne(k, r), k) <= Allowance(r)
    ensures Allowance(r) >= 1 ==> CallsOn(RepairOne(k, r), k) >= 1
  {
    if r.Resolved? { LoopCalls(k, 1, r.maxAttempts, r.attempt, ""); }
  }

  lemma {:induction false} NoCallsElsewhere(events: seq<Event>, ks: seq<nat>, k: nat)
    requires CallsWithin(events, ks) && k !in ks
    ensures CallsOn(events, k) == 0
  {
    if events != [] {
      assert forall i :: 0 <= i < |events[1..]| ==> events[1..][i] == events[i + 1];
      NoCallsElsewhere(events[1..], ks, k);
    }
  }

  lemma {:induction false} PassCalls(ks: seq<nat>, o: Oracle)
    requires forall i, j :: 0 <= i < j < |ks| ==> ks[i] > ks[j]
    ensures NewestFirst(Repairs(ks, o)) && CallsWithin(Repairs(ks, o), ks)
    ensures forall k :: k in ks ==> CallsOn(Repairs(ks, o), k) == CallsMade(o.repair(k))
    ensures forall k :: k in ks ==> CallsOn(Repairs(ks, o), k) <= Allowance(o.repair(k))
    ensures forall k :: k in ks && Allowance(o.repair(k)) >= 1 ==> CallsOn(Repairs(ks, o), k) >= 1
  {
    if ks != [] {
      var k0 := ks[0];
      var first, rest := RepairOne(k0, o.repair(k0)), Repairs(ks[1..], o);
      RepairCalls(k0, o.repair(k0));
      PassCalls(ks[1..], o);
      forall k | k in ks
        ensures CallsOn(Repairs(ks, o), k) == CallsMade(o.repair(k))
        ensures CallsOn(Repairs(ks, o), k) <= Allowance(o.repair(k))
        ensures Allowance(o.repair(k)) >= 1 ==> CallsOn(Repairs(ks, o), k) >= 1
      {
        CallsOnAppend(first, rest, k);
        if k == k0 { NoCallsElsewhere(rest, ks[1..], k); } else { NoCallsElsewhere(first, [k0], k); }
      }
      PassOrder(first, rest, ks);
    }
  }

  lemma PassOrder(first: seq<Event>, rest: seq<Event>, ks: seq<nat>)
    requires ks != [] && forall i, j :: 0 <= i < j < |ks| ==> ks[i] > ks[j]
    requires NewestFirst(first) && CallsWithin(first, [ks[0]])
    requires NewestFirst(rest) && CallsWithin(rest, ks[1..])
    ensures NewestFirst(first + rest) && CallsWithin(first + rest, ks)
  {
    var all := first + rest;
    forall i, j | 0 <= i < j < |all| && all[i].Compensate? && all[j].Compensate?
      ensures all[j].k <= all[i].k && (all[j].k == all[i].k ==> !all[i].ok)
    {
      if j < |first| {
      } else if i >= |first| {
        assert all[i] == rest[i - |first|] && all[j] == rest[j - |first|];
      } else {
        assert all[i].k in [ks[0]];
        assert rest[j - |first|].k in ks[1..];
      }
    }
    forall i | 0 <= i < |all| && all[i].Compensate? ensures all[i].k in ks {
      if i < |first| { assert all[i].k in [ks[0]]; } else { assert rest[i - |first|].k in ks[1..]; }
    }
  }

  /** One rollback pass calls only steps that are not already COMPENSATED, newest first, each at
      least once when any attempt is allowed and at most as often as its policy allows, and never
      again after a success. */
  lemma ReverseCompensation(row: Row, o: Oracle)
    requires !Terminal(row.status)
    ensures NewestFirst(RollbackProgram(row, o)) && CallsWithin(RollbackProgram(row, o), Listed(row.steps))
    ensures forall k :: k in Listed(row.steps) ==> CallsOn(RollbackProgram(row, o), k) <= Allowance(o.repair(k))
    ensures forall k :: k in Listed(row.steps) && Allowance(o.repair(k)) >= 1 ==>
            CallsOn(RollbackProgram(row, o), k) >= 1
  {
    var program := RollbackProgram(row, o);
    PassCalls(Listed(row.steps), o);
    WritesAround(SetStatus(RollingBack), Repairs(Listed(row.steps), o), program[|program| - 1], Listed(row.steps));
  }

  lemma PassCallsExact(row: Row, o: Oracle, k: nat)
    requires !Terminal(row.status) && k in Listed(row.steps)
    ensures CallsOn(RollbackProgram(row, o), k) == CallsMade(o.repair(k))
  {
    var program := RollbackProgram(row, o);
    PassCalls(Listed(row.steps), o);
    WritesAround(SetStatus(RollingBack), Repairs(Listed(row.steps), o), program[|program| - 1], Listed(row.steps));
  }

  /** A write before and after leaves the calls as they are. */
  lemma WritesAround(start: Event, pass: seq<Event>, end: Event, ks: seq<nat>)
    requires start.Write? && end.Write? && NewestFirst(pass) && CallsWithin(pass, ks)
    ensures var program := [start] + pass + [end];
      NewestFirst(program) && CallsWithin(program, ks) && forall k :: CallsOn(program, k) == CallsOn(pass, k)
  {
    var program := [start] + pass + [end];
    forall k ensures CallsOn(program, k) == CallsOn(pass, k) {
      CallsOnAppend([start] + pass, [end], k);
      CallsOnAppend([start], pass, k);
      assert CallsOn([start], k) == 0 && CallsOn([end], k) == 0;
    }
    assert forall i :: 0 <= i < |program| && program[i].Compensate? ==> 1 <= i <= |pass| && program[i] == pass[i - 1];
  }

  // ---- how a pass ends ----

  function RolledBackRow(row: Row, o: Oracle): Row { RunRow(row, RollbackProgram(row, o)) }

  lemma PassResult(row: Row, o: Oracle)
    requires !Terminal(row.status)
    requires PlanOk(row.nodes, |row.steps|)
    ensures var after := RolledBackRow(row, o);
      && |after.steps| == |row.steps|
      && (forall k :: 0 <= k < |row.steps| ==>
            RepairedStep(row.steps[k], after.steps[k], k in Listed(row.steps), o.repair(k)))
      && after.nodes == MirrorNodes(row.nodes, after.steps)
      && after.status == if AnyFails(Listed(row.steps), o) then RollbackFailed else RolledBack
  {
    var b := Book(row, [], true, {}, false);
    assert Good(b);
    BeginUnwinding(b, o);
    var undo := [SetStatus(RollingBack)] + Repairs(Listed(row.steps), o);
    RowOfBook(b, undo);
    RowAppends(row, undo, [RollbackProgram(row, o)[|undo|]]);
    assert RollbackProgram(row, o) == undo + [RollbackProgram(row, o)[|undo|]];
    assert RunRow(RunRow(row, undo), [RollbackProgram(row, o)[|undo|]])
        == After(RunRow(row, undo), RollbackProgram(row, o)[|undo|]);
  }

  /** Step `k` after a pass: COMPENSATED steps are left alone; any other ends COMPENSATED, COMPENSATION_FAILED
      or (having slipped) as it was, and records the calls made for it if it was called and did not slip. */
  ghost predicate StepPassed(row: Row, after: Row, o: Oracle, k: nat)
    requires k < |row.steps| == |after.steps|
  {
    if row.steps[k].status.Compensated? then after.steps[k] == row.steps[k]
    else
      && (Undone(o.repair(k)) ==> after.steps[k].status.Compensated?)
      && (Fails(o.repair(k)) ==> after.steps[k].status.CompensationFailed?)
      && (Slips(o.repair(k)) ==> after.steps[k] == row.steps[k])
      && after.steps[k].contract == row.steps[k].contract
      && after.steps[k].compensationAttempts ==
           (if o.repair(k).Resolved? && !Slips(o.repair(k)) then CallsOn(RollbackProgram(row, o), k)
            else row.steps[k].compensationAttempts)
  }

  /** Node `n` after a pass: COMPENSATED when its step is or was, COMPENSATION_FAILED when its step failed now,
      or failed before and slipped now; otherwise it keeps its status. Nothing else of it changes. */
  ghost predicate NodePassed(row: Row, after: Row, o: Oracle, n: nat)
    requires n < |row.nodes| == |after.nodes|
  {
    var k := row.nodes[n].stepNo;
    && after.nodes[n] == row.nodes[n].(status := after.nodes[n].status)
    && after.nodes[n].status ==
         if k.None? || k.value >= |row.steps| then row.nodes[n].status
         else if row.steps[k.value].status.Compensated? || Undone(o.repair(k.value)) then NodeStatus.Compensated
         else if Fails(o.repair(k.value)) || row.steps[k.value].status.CompensationFailed?
         then NodeStatus.CompensationFailed
         else row.nodes[n].status
  }

  /** How every step, every node and the saga end: the verdict is ROLLED_BACK exactly when no step was
      recorded as failed. */
  ghost predicate PassEnds(row: Row, after: Row, o: Oracle) {
    && |after.steps| == |row.steps| && |after.nodes| == |row.nodes|
    && (forall k :: 0 <= k < |row.steps| ==> StepPassed(row, after, o, k))
    && (forall n :: 0 <= n < |row.nodes| ==> NodePassed(row, after, o, n))
    && (after.status.RolledBack? || after.status.RollbackFailed?)
    && (after.status.RolledBack? <==>
          forall k :: 0 <= k < |row.steps| && !row.steps[k].status.Compensated? ==>
            Undone(o.repair(k)) || Slips(o.repair(k)))
  }

  lemma PassVerdict(row: Row, o: Oracle)
    requires !Terminal(row.status) && PlanOk(row.nodes, |row.steps|)
    ensures PassEnds(row, RolledBackRow(row, o), o)
  {
    PassResult(row, o);
    var after := RolledBackRow(row, o);
    forall k | 0 <= k < |row.steps| ensures StepPassed(row, after, o, k) { PassStep(row, o, k); }
    forall n | 0 <= n < |row.nodes| ensures NodePassed(row, after, o, n) { PassesNode(row, o, n); }
  }

  lemma PassesNode(row: Row, o: Oracle, n: nat)
    requires !Terminal(row.status) && PlanOk(row.nodes, |row.steps|) && n < |row.nodes|
    ensures |RolledBackRow(row, o).nodes| == |row.nodes| && NodePassed(row, RolledBackRow(row, o), o, n)
  {
    PassNode(row, o, n);
    var k := row.nodes[n].stepNo;
    if k.Some? && k.value < |row.steps| {
      PassAt(row, o, k.value);
      RepairEndMeaning(o.repair(k.value));
    }
  }

  lemma PassStep(row: Row, o: Oracle, k: nat)
    requires !Terminal(row.status) && PlanOk(row.nodes, |row.steps|) && k < |row.steps|
    ensures |RolledBackRow(row, o).steps| == |row.steps| && StepPassed(row, RolledBackRow(row, o), o, k)
  {
    PassResult(row, o);
    RepairEndMeaning(o.repair(k));
    assert RepairedStep(row.steps[k], RolledBackRow(row, o).steps[k], k in Listed(row.steps), o.repair(k));
    if k in Listed(row.steps) { PassCallsExact(row, o, k); }
  }

  /** How one journaled step, and one node, come out of a pass. */
  lemma PassAt(row: Row, o: Oracle, k: nat)
    requires !Terminal(row.status) && PlanOk(row.nodes, |row.steps|) && k < |row.steps|
    ensures var after := RolledBackRow(row, o);
      && |after.steps| == |row.steps|
      && after.steps[k].status == if row.steps[k].status.Compensated? then StepStatus.Compensated
                                  else EndStatus(RepairEnd(o.repair(k)), row.steps[k].status)
  {
    PassResult(row, o);
    assert RepairedStep(row.steps[k], RolledBackRow(row, o).steps[k], k in Listed(row.steps), o.repair(k));
  }

  lemma PassNode(row: Row, o: Oracle, n: nat)
    requires !Terminal(row.status) && PlanOk(row.nodes, |row.steps|) && n < |row.nodes|
    ensures var after := RolledBackRow(row, o);
      |after.nodes| == |row.nodes| && after.nodes[n] == Mirrored(row.nodes[n], after.steps)
  {
    PassResult(row, o);
  }

  /** "ROLLED_BACK iff every step ended COMPENSATED" holds for a pass exactly when no listed repair
      slips, or some repair fails outright. */
  lemma RolledBackIffAllUndone(row: Row, o: Oracle)
    requires !Terminal(row.status) && PlanOk(row.nodes, |row.steps|)
    ensures (RolledBackRow(row, o).status.RolledBack? <==> AllUndone(RolledBackRow(row, o).steps)) <==>
      (AnyFails(Listed(row.steps), o) || forall k :: k in Listed(row.steps) ==> !Slips(o.repair(k)))
  {
    PassResult(row, o);
    var after := RolledBackRow(row, o);
    forall k | 0 <= k < |row.steps|
      ensures after.steps[k].status.Compensated? <==> row.steps[k].status.Compensated? || Undone(o.repair(k))
    {
      PassAt(row, o, k);
      RepairEndMeaning(o.repair(k));
    }
    if k :| k in Listed(row.steps) && !Undone(o.repair(k)) {
      assert !after.steps[k].status.Compensated?;
    } else {
      forall k | 0 <= k < |after.steps| ensures after.steps[k].status.Compensated? {
        if !row.steps[k].status.Compensated? { assert k in Listed(row.steps); }
      }
    }
  }

  /** An action whose compensation raises an error without a message: the saga reports ROLLED_BACK
      although its only step was never compensated. */
  lemma EmptyErrorCounterexample()
    ensures exists row: Row, o: Oracle ::
      && row.status.Active? && PlanOk(row.nodes, |row.steps|)
      && RolledBackRow(row, o).status.RolledBack?
      && |RolledBackRow(row, o).steps| == 1 && RolledBackRow(row, o).steps[0].status.Completed?
  {
    var row := Row(Active, [], [Step(StepStatus.Completed, 0, Contract(Some(Rollback), "low"))]);
    var r := Resolved(1, _ => Raised(""));
    var o := Oracle((_, _) => true, (_, _) => true, (_, _) => Forward(1, _ => Succeeded), (_, _) => 0,
                    Forward(1, _ => Succeeded), _ => r);
    assert Slips(r);
    SlippedPass(row, o);
  }

  lemma SlippedPass(row: Row, o: Oracle)
    requires row.status.Active? && row.nodes == [] && |row.steps| == 1 && row.steps[0].status.Completed?
    requires Slips(o.repair(0))
    ensures RolledBackRow(row, o).status.RolledBack?
    ensures |RolledBackRow(row, o).steps| == 1 && RolledBackRow(row, o).steps[0].status.Completed?
  {
    PassAt(row, o, 0);
    RepairEndMeaning(o.repair(0));
    PassResult(row, o);
    assert forall k :: k in Listed(row.steps) ==> k == 0;
  }

  // ---- recovery ----

  function RecoveredRow(row: Row, o: Oracle): Row { RunRow(row, RecoverProgram(row, o)) }

  /** A recovery sweep on one saga: only a pending saga is claimed. */
  function Swept(row: Row, o: Oracle): Row { if IsPending(row) then RecoveredRow(row, o) else row }

  /** Every EXECUTING node is FAILED and uncertain, nothing else but the saga's status changed, and
      there was no external call. */
  ghost predicate EscalatedWholesale(row: Row, after: Row, events: seq<Event>) {
    && after.status.RecoveryRequired? && after.steps == row.steps && |after.nodes| == |row.nodes|
    && (forall n :: 0 <= n < |row.nodes| ==>
          after.nodes[n] == if row.nodes[n].status.Executing?
                            then row.nodes[n].(status := NodeStatus.Failed, uncertain := true) else row.nodes[n])
    && forall i :: 0 <= i < |events| ==> events[i].Write?
  }

  /** An EXECUTING node must pause, or its persisted policy proves nothing. */
  ghost predicate SomeMustPause(nodes: seq<Node>) {
    exists n :: 0 <= n < |nodes| && nodes[n].status.Executing? && nodes[n].contract.failureMode != Some(Rollback)
  }

  lemma NeedsOperatorIff(nodes: seq<Node>)
    ensures NeedsOperator(nodes) <==> SomeMustPause(nodes)
  {
    if NeedsOperator(nodes) {
      var node :| node in nodes && InFlight(node) && !RollsBack(node);
      var n :| 0 <= n < |nodes| && nodes[n] == node;
    }
    if n :| 0 <= n < |nodes| && nodes[n].status.Executing? && nodes[n].contract.failureMode != Some(Rollback) {
      assert nodes[n] in nodes;
    }
  }

  /** No earlier pass touched the step and this one slips on it. */
  predicate StaysOpen(row: Row, k: nat, o: Oracle) {
    && k < |row.steps|
    && !row.steps[k].status.Compensated? && !row.steps[k].status.CompensationFailed?
    && Slips(o.repair(k))
  }

  /** An uncontended recovery of a pending saga escalates, as a whole, exactly when some EXECUTING node must
      pause or has no provable policy, and otherwise is a rollback pass. It ends in ROLLED_BACK,
      ROLLBACK_FAILED or RECOVERY_REQUIRED, and leaves no node in flight exactly when it escalated or no
      EXECUTING node's step stays open. */
  lemma RecoveryCloses(row: Row, o: Oracle)
    requires AwaitsRecovery(row) && PlanOk(row.nodes, |row.steps|)
    ensures var after := RecoveredRow(row, o);
      && (after.status.RolledBack? || after.status.RollbackFailed? || after.status.RecoveryRequired?)
      && (after.status.RecoveryRequired? <==> SomeMustPause(row.nodes))
      && (if SomeMustPause(row.nodes) then EscalatedWholesale(row, after, RecoverProgram(row, o))
          else after == RolledBackRow(row, o))
      && ((forall n :: 0 <= n < |after.nodes| ==> !after.nodes[n].status.Executing?) <==>
            SomeMustPause(row.nodes) ||
            forall n :: 0 <= n < |row.nodes| && row.nodes[n].status.Executing? ==>
                !StaysOpen(row, row.nodes[n].stepNo.value, o))
  {
    NeedsOperatorIff(row.nodes);
    if NeedsOperator(row.nodes) {
      var e := Write(SetSaga(Some(RecoveryRequired), Some(Escalated(row.nodes))));
      assert RunRow(row, [e]) == After(row, e);
    } else {
      PassResult(row, o);
      var after := RecoveredRow(row, o);
      forall n | 0 <= n < |row.nodes|
        ensures after.nodes[n].status.Executing? <==>
          row.nodes[n].status.Executing? && StaysOpen(row, row.nodes[n].stepNo.value, o)
      {
        MirrorOne(row, n, o);
      }
    }
  }

  lemma MirrorOne(row: Row, n: nat, o: Oracle)
    requires !Terminal(row.status) && PlanOk(row.nodes, |row.steps|) && n < |row.nodes|
    ensures |RolledBackRow(row, o).nodes| == |row.nodes|
    ensures RolledBackRow(row, o).nodes[n].status.Executing? <==>
      row.nodes[n].status.Executing? && StaysOpen(row, row.nodes[n].stepNo.value, o)
  {
    PassNode(row, o, n);
    if row.nodes[n].status.Executing? {
      var k := row.nodes[n].stepNo.value;
      PassAt(row, o, k);
      RepairEndMeaning(o.repair(k));
    }
  }

  /** With sound repairs a sweep leaves no node EXECUTING exactly when there was none, or the saga was FAILED,
      ROLLING_BACK or ROLLBACK_FAILED, or ACTIVE with an EXECUTING step: an ACTIVE saga whose in-flight steps
      have all already been recorded as COMPLETED or FAILED is not picked up. */
  lemma SweepClosesIffPending(row: Row, o: Oracle)
    requires PlanOk(row.nodes, |row.steps|) && forall k :: !Slips(o.repair(k))
    ensures (forall n :: 0 <= n < |Swept(row, o).nodes| ==> !Swept(row, o).nodes[n].status.Executing?) <==>
      || (forall n :: 0 <= n < |row.nodes| ==> !row.nodes[n].status.Executing?)
      || row.status.Failed? || row.status.RollingBack? || row.status.RollbackFailed?
      || (row.status.Active? && exists k :: 0 <= k < |row.steps| && row.steps[k].status.Executing?)
    ensures Swept(row, o) != row ==> AwaitsRecovery(row)
  {
    assert IsPending(row) <==> AwaitsRecovery(row);
    if IsPending(row) {
      RecoveryCloses(row, o);
      forall n | 0 <= n < |row.nodes| && row.nodes[n].status.Executing?
        ensures !StaysOpen(row, row.nodes[n].stepNo.value, o)
      {
        assert !Slips(o.repair(row.nodes[n].stepNo.value));
      }
      var after := RecoveredRow(row, o);
      assert forall n :: 0 <= n < |after.nodes| ==> !after.nodes[n].status.Executing?;
      assert AwaitsRecovery(row);
    } else {
      assert Swept(row, o) == row;
    }
  }
}
