/** What every reachable state of every run satisfies: the coordinator's promises, over all
    interleavings, crashes, retries and lease takeovers. */
module Guarantees {
  import opened Types
  import opened AbstractStore
  import opened Engine
  import opened Programs
  import opened Ledger
  import opened Interleaving

  function Reached(now: real, moves: seq<Move>): Book { Run(Begun(now), moves).book }

  // ---- compensation loops that slip ----

  /** No repair ever ends without success and with an empty error: every raised error has a
      message and at least one attempt is allowed, or the attempt succeeds. */
  ghost predicate Sound(o: Oracle) { forall k :: !Slips(o.repair(k)) }

  ghost predicate AllSound(moves: seq<Move>) {
    forall i :: 0 <= i < |moves| && (moves[i].Read? || moves[i].List?) ==> Sound(moves[i].oracle)
  }

  predicate SlipFree(events: seq<Event>) {
    forall i :: 0 <= i < |events| ==> !events[i].Slip?
  }

  lemma {:induction false} CompensateSlipFree(k: nat, i: nat, maxAttempts: int, attempt: nat -> Outcome, last: string)
    requires i >= 1
    requires (exists j :: i <= j <= maxAttempts && attempt(j).Succeeded?)
          || (if i <= maxAttempts then attempt(maxAttempts).Raised? && attempt(maxAttempts).message != ""
              else last != "")
    ensures SlipFree(CompensateFrom(k, i, maxAttempts, attempt, last))
    decreases maxAttempts - i + 1
  {
    if i <= maxAttempts && attempt(i).Raised? {
      CompensateSlipFree(k, i + 1, maxAttempts, attempt, attempt(i).message);
    }
  }

  lemma {:induction false} RepairsSlipFree(ks: seq<nat>, o: Oracle)
    requires Sound(o)
    ensures SlipFree(Repairs(ks, o))
  {
    if ks != [] {
      RepairsSlipFree(ks[1..], o);
      var r := o.repair(ks[0]);
      assert !Slips(r);
      if r.Resolved? {
        CompensateSlipFree(ks[0], 1, r.maxAttempts, r.attempt, "");
      }
    }
  }

  lemma {:induction false} PrepareSlipFree(p: Prep, wave: seq<nat>, w: nat, o: Oracle)
    requires forall i :: 0 <= i < |wave| ==> wave[i] < |p.nodes|
    requires SlipFree(p.events)
    ensures SlipFree(Prepare(p, wave, w, o).events)
    decreases |wave|
  {
    if wave != [] && !p.aborted {
      PrepareSlipFree(PrepareOne(p, wave[0], w, o), wave[1..], w, o);
    }
  }

  lemma ExecutionSlipFree(p: Prep, w: nat, o: Oracle)
    requires p.prepared != []
    ensures SlipFree(Execution(p.nodes, p.prepared, w, o))
  {
    var a, c := Invocations(p.nodes, CallOrder(p.prepared, w, o)), FinishEvents(p.nodes, p.prepared, w, o);
    assert SlipFree(a) && SlipFree(c);
    SlipFreeConcat(a, c);
    SlipFreeConcat(a + c, [SaveNodes(DoneNodes(p.nodes, p.prepared, w, o))]);
  }

  lemma SlipFreeConcat(a: seq<Event>, c: seq<Event>)
    requires SlipFree(a) && SlipFree(c)
    ensures SlipFree(a + c)
  {
  }

  lemma WaveSlipFree(row: Row, maxParallel: int, budget: int, w: nat, o: Oracle)
    requires maxParallel >= 1 && budget >= 1
    ensures SlipFree(RunWave(row, maxParallel, budget, w, o).events)
  {
    var nodes := Refresh(row.nodes);
    var ready := ReadyNodes(nodes);
    PrepareSlipFree(Prep(nodes, row.steps, [], [], false), ready[..Min(Min(maxParallel, budget), |ready|)], w, o);
    var p := Prepared(row, maxParallel, budget, w, o);
    if p.prepared != [] { ExecutionSlipFree(p, w, o); }
  }

  lemma {:induction false} LoopSlipFree(f: Waves, row: Row, budget: int, w: nat)
    requires forall r: Row, b: int, v: nat :: b >= 1 ==> SlipFree(f(r, b, v).events)
    ensures SlipFree(Loop(f, row, budget, w))
    decreases budget
  {
    if budget > 0 {
      var wave := f(row, budget, w);
      if wave.verdict.Continued? && |wave.prepared| > 0 {
        LoopSlipFree(f, RunRow(row, wave.events), budget - |wave.prepared|, w + 1);
      }
    }
  }

  lemma RunSlipFree(row: Row, maxParallel: int, maxSteps: int, o: Oracle)
    ensures SlipFree(RunProgram(row, maxParallel, maxSteps, o))
  {
    if RunAllowed(row, maxParallel, maxSteps) {
      forall r: Row, b: int, v: nat | b >= 1 ensures SlipFree(WavesOf(maxParallel, o)(r, b, v).events) {
        WaveSlipFree(r, maxParallel, b, v, o);
      }
      LoopSlipFree(WavesOf(maxParallel, o), row, maxSteps, 0);
    }
  }

  lemma RollbackSlipFree(row: Row, o: Oracle)
    requires Sound(o)
    ensures SlipFree(RollbackProgram(row, o))
  {
    RepairsSlipFree(Listed(row.steps), o);
  }

  lemma ProgramSlipFree(op: Op, row: Row, o: Oracle)
    requires Sound(o)
    ensures SlipFree(Program(op, row, o))
  {
    match op
    case RunReady(maxParallel, maxSteps) => RunSlipFree(row, maxParallel, maxSteps, o);
    case RollBack => RollbackSlipFree(row, o);
    case Recover => RollbackSlipFree(row, o);
    case _ =>
  }

  ghost predicate NothingSlips(w: World) {
    !w.book.slipped && forall t :: t in w.sessions && w.sessions[t].Running? ==> SlipFree(w.sessions[t].rest)
  }

  lemma {:induction false} SoundNeverSlips(now: real, moves: seq<Move>)
    requires AllSound(moves)
    ensures NothingSlips(Run(Begun(now), moves))
  {
    if moves != [] {
      var init, m := moves[..|moves| - 1], moves[|moves| - 1];
      SoundNeverSlips(now, init);
      var w := Run(Begun(now), init);
      if m.Read? && m.token in w.sessions && w.sessions[m.token].Waiting? {
        ProgramSlipFree(w.sessions[m.token].op, w.book.row, m.oracle);
      }
      if m.List? && m.token in w.listing && Working(w, m.token) {
        RollbackSlipFree(w.book.row.(status := RollingBack), m.oracle);
      }
      if m.Advance? && Working(w, m.token) {
        assert !w.sessions[m.token].rest[0].Slip?;
        assert SlipFree(w.sessions[m.token].rest[1..]);
      }
    }
  }

  // ---- terminal states ----

  lemma {:induction false} RunEvolves(now: real, a: seq<Move>, b: seq<Move>)
    ensures Evolves(Reached(now, a).row, Reached(now, a + b).row)
  {
    if b == [] {
      assert a + b == a;
      EvolvesSelf(Reached(now, a).row);
    } else {
      var init, m := b[..|b| - 1], b[|b| - 1];
      assert (a + b)[..|a + b| - 1] == a + init;
      RunEvolves(now, a, init);
      AlwaysInv(now, a + init);
      NextKeeps(Run(Begun(now), a + init), m);
      EvolvesTrans(Reached(now, a).row, Reached(now, a + init).row, Reached(now, a + b).row);
    }
  }

  lemma EvolvesTrans(a: Row, b: Row, c: Row)
    requires Evolves(a, b) && Evolves(b, c)
    ensures Evolves(a, c)
  {
    forall i | 0 <= i < |a.nodes| ensures NodeEvolves(a.nodes[i], c.nodes[i]) {
      assert NodeEvolves(a.nodes[i], b.nodes[i]) && NodeEvolves(b.nodes[i], c.nodes[i]);
    }
    forall k | 0 <= k < |a.steps| ensures a.steps[k].contract == c.steps[k].contract {
      assert a.steps[k].contract == b.steps[k].contract && b.steps[k].contract == c.steps[k].contract;
    }
  }

  /** COMMITTED and ROLLED_BACK are never left, by any operation, stale worker or recovery pass. */
  lemma TerminalIsForever(now: real, a: seq<Move>, b: seq<Move>)
    requires Terminal(Reached(now, a).row.status)
    ensures Reached(now, a + b).row.status == Reached(now, a).row.status
  {
    RunEvolves(now, a, b);
  }

  /** A reachable COMMITTED saga has only COMPLETED nodes; a reachable ROLLED_BACK saga, when no
      repair slipped, has only COMPENSATED steps, every node that ran is COMPENSATED, and nothing is in
      flight. */
  lemma TerminalMeansDone(now: real, moves: seq<Move>)
    ensures Reached(now, moves).row.status.Committed? ==> AllCompleted(Reached(now, moves).row.nodes)
    ensures AllSound(moves) && Reached(now, moves).row.status.RolledBack? ==>
      && (forall k :: 0 <= k < |Reached(now, moves).row.steps| ==>
            Reached(now, moves).row.steps[k].status.Compensated?)
      && (forall n :: 0 <= n < |Reached(now, moves).row.nodes| && Reached(now, moves).row.nodes[n].stepNo.Some? ==>
            Reached(now, moves).row.nodes[n].status.Compensated?)
      && NoneInFlight(Reached(now, moves).row.nodes)
  {
    AlwaysInv(now, moves);
    if AllSound(moves) { SoundNeverSlips(now, moves); }
  }

  // ---- idempotency identity ----

  /** Every forward call ever made for a node, by any worker however stale, carries the same
      step, in every continuation of the run. */
  lemma OneStepPerNode(now: real, a: seq<Move>, b: seq<Move>, n: nat, i: nat, j: nat)
    requires i < |Reached(now, a).log| && j < |Reached(now, a + b).log|
    requires Reached(now, a).log[i].Invoke? && Reached(now, a).log[i].node == Some(n)
    requires Reached(now, a + b).log[j].Invoke? && Reached(now, a + b).log[j].node == Some(n)
    ensures Reached(now, a).log[i].k == Reached(now, a + b).log[j].k
    ensures n < |Reached(now, a).row.nodes| && Reached(now, a).row.nodes[n].stepNo == Some(Reached(now, a).log[i].k)
  {
    AlwaysInv(now, a);
    AlwaysInv(now, a + b);
    RunEvolves(now, a, b);
    assert Links(Reached(now, a).row.nodes, Reached(now, a).log[i]);
    assert NodeEvolves(Reached(now, a).row.nodes[n], Reached(now, a + b).row.nodes[n]);
    assert Links(Reached(now, a + b).row.nodes, Reached(now, a + b).log[j]);
  }

  /** Two different nodes never share a step. */
  lemma StepsAreUnshared(now: real, moves: seq<Move>, i: nat, j: nat)
    requires i < |Reached(now, moves).log| && j < |Reached(now, moves).log|
    requires Reached(now, moves).log[i].Invoke? && Reached(now, moves).log[i].node.Some?
    requires Reached(now, moves).log[j].Invoke? && Reached(now, moves).log[j].node.Some?
    requires Reached(now, moves).log[i].k == Reached(now, moves).log[j].k
    ensures Reached(now, moves).log[i].node == Reached(now, moves).log[j].node
  {
    AlwaysInv(now, moves);
    assert Links(Reached(now, moves).row.nodes, Reached(now, moves).log[i]);
    assert Links(Reached(now, moves).row.nodes, Reached(now, moves).log[j]);
  }

  // ---- write-ahead coverage ----

  lemma {:induction false} LastOnIsLast(log: seq<Event>, k: nat, i: nat) returns (j: nat)
    requires i < |log| && Touches(log[i], k)
    ensures i <= j < |log| && LastOn(log, k) == Some(log[j]) && Touches(log[j], k)
  {
    if Touches(log[|log| - 1], k) {
      j := |log| - 1;
    } else {
      j := LastOnIsLast(log[..|log| - 1], k, i);
    }
  }

  lemma {:induction false} StaysTracked(now: real, moves: seq<Move>)
    ensures Reached(now, moves).tracked
  {
    if moves != [] { StaysTracked(now, moves[..|moves| - 1]); }
  }

  /** At every point of every run: a step for which no superseded worker made a call, invoked after its
      last successful compensation, is journaled with a status that rollback picks up. */
  lemma InvokedIsCovered(now: real, moves: seq<Move>, i: nat)
    requires i < |Reached(now, moves).log| && Reached(now, moves).log[i].Invoke?
    requires Reached(now, moves).log[i].k !in Reached(now, moves).strays
    requires forall j :: i < j < |Reached(now, moves).log| ==>
      Reached(now, moves).log[j] != Compensate(Reached(now, moves).log[i].k, true)
    ensures var k := Reached(now, moves).log[i].k;
      k < |Reached(now, moves).row.steps| && k in Listed(Reached(now, moves).row.steps)
  {
    AlwaysInv(now, moves);
    StaysTracked(now, moves);
    var b := Reached(now, moves);
    var k := b.log[i].k;
    if b.row.steps[k].status.Compensated? {
      var j := LastOnIsLast(b.log, k, i);
      assert false;
    }
  }

  /** A rollback that reached ROLLED_BACK leaves each invoked step's last external call a
      successful compensation, if no superseded worker made a call for that very step. */
  lemma RolledBackUndidEveryCall(now: real, moves: seq<Move>, i: nat)
    requires AllSound(moves) && Reached(now, moves).row.status.RolledBack?
    requires i < |Reached(now, moves).log| && Reached(now, moves).log[i].Invoke?
    requires Reached(now, moves).log[i].k !in Reached(now, moves).strays
    ensures LastOn(Reached(now, moves).log, Reached(now, moves).log[i].k)
         == Some(Compensate(Reached(now, moves).log[i].k, true))
  {
    AlwaysInv(now, moves);
    StaysTracked(now, moves);
    SoundNeverSlips(now, moves);
  }

  // ---- plans ----

  /** Outside rollback, a READY, EXECUTING or COMPLETED node has all its dependencies COMPLETED;
      while unwinding, that holds or nothing is in flight. */
  lemma DependenciesHold(now: real, moves: seq<Move>)
    requires AllSound(moves)
    ensures DependencyRule(Reached(now, moves).row)
    ensures !Unwinding(Reached(now, moves).row.status) ==>
      forall n, d :: 0 <= n < |Reached(now, moves).row.nodes| && UnderWay(Reached(now, moves).row.nodes[n])
                     && d in Reached(now, moves).row.nodes[n].deps
        ==> d < |Reached(now, moves).row.nodes| && Reached(now, moves).row.nodes[d].status.Completed?
  {
    AlwaysInv(now, moves);
    SoundNeverSlips(now, moves);
    var nodes := Reached(now, moves).row.nodes;
    if DependenciesDone(nodes) {
      forall n, d | 0 <= n < |nodes| && UnderWay(nodes[n]) && d in nodes[n].deps
        ensures d < |nodes| && nodes[d].status.Completed?
      {
        assert AllDone(nodes[n].deps, nodes);
      }
    }
  }

  /** A node that requires approval is READY, EXECUTING or COMPLETED only while its recorded
      decision is APPROVED. */
  lemma ApprovalIsRespected(now: real, moves: seq<Move>, n: nat)
    requires n < |Reached(now, moves).row.nodes| && UnderWay(Reached(now, moves).row.nodes[n])
    requires Reached(now, moves).row.nodes[n].approvalRequired
    ensures Reached(now, moves).row.nodes[n].approval.Approved?
  {
    AlwaysInv(now, moves);
  }

  /** Planning keeps the graph acyclic, keys unique and step links unshared; what was planned is
      never rewritten. */
  lemma PlansStayWellFormed(now: real, a: seq<Move>, b: seq<Move>)
    ensures PlanOk(Reached(now, a).row.nodes, |Reached(now, a).row.steps|)
    ensures NodesEvolve(Reached(now, a).row.nodes, Reached(now, a + b).row.nodes)
  {
    AlwaysInv(now, a);
    RunEvolves(now, a, b);
  }
}
