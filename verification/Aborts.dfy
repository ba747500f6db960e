/** Which waves of `run_ready_steps` abort, and what they have journaled by then: read off the
    members of the wave and what the registry answers for them. */
module Aborts {
  import opened Types
  import opened AbstractStore
  import opened Engine
  import opened Programs
  import opened Ledger
  import opened RunResults

  /** The members of a wave: the first READY nodes after a refresh. */
  function Chosen(row: Row, maxParallel: int, budget: int): (r: seq<nat>)
    requires maxParallel >= 1 && budget >= 1
    ensures Distinct(r) && forall i :: 0 <= i < |r| ==> r[i] < |row.nodes|
  {
    var ready := ReadyNodes(Refresh(row.nodes));
    ready[..Min(Min(maxParallel, budget), |ready|)]
  }

  /** Some member's contract does not resolve. */
  predicate SomeUnresolved(members: seq<nat>, w: nat, o: Oracle) {
    exists i :: 0 <= i < |members| && !o.resolves(w, members[i])
  }

  /** The member would get a new step: its input is valid and it has none yet. */
  predicate NeedsStep(nodes: seq<Node>, n: nat, w: nat, o: Oracle) {
    n < |nodes| && o.valid(w, n) && nodes[n].stepNo.None?
  }

  /** The members that need a step, up to the first one that does not resolve. */
  function NewlyJournaled(nodes: seq<Node>, members: seq<nat>, w: nat, o: Oracle): (r: seq<nat>)
    ensures forall n :: n in r ==> n < |nodes|
  {
    if members == [] || !o.resolves(w, members[0]) then []
    else
      var rest := NewlyJournaled(nodes, members[1..], w, o);
      if NeedsStep(nodes, members[0], w, o) then [members[0]] + rest else rest
  }

  lemma {:induction false} NewlyJournaledFrame(a: seq<Node>, b: seq<Node>, members: seq<nat>, w: nat, o: Oracle)
    requires |a| == |b| && forall i :: 0 <= i < |members| && members[i] < |a| ==>
             a[members[i]].stepNo == b[members[i]].stepNo
    ensures NewlyJournaled(a, members, w, o) == NewlyJournaled(b, members, w, o)
  {
    if members != [] && o.resolves(w, members[0]) { NewlyJournaledFrame(a, b, members[1..], w, o); }
  }

  /** The steps on top of the first `k` belong to the nodes listed, contract by contract. */
  ghost predicate StepsFor(steps: seq<Step>, k: nat, nodes: seq<Node>, ns: seq<nat>) {
    |steps| == k + |ns| &&
    forall j :: 0 <= j < |ns| ==> ns[j] < |nodes| && steps[k + j].contract == nodes[ns[j]].contract
  }

  lemma StartShape(p: Prep, n: nat, w: nat, o: Oracle)
    requires n < |p.nodes|
    ensures var q := PrepareOne(p, n, w, o);
      && |q.nodes| == |p.nodes|
      && (forall m :: 0 <= m < |p.nodes| ==>
            q.nodes[m].contract == p.nodes[m].contract && (m != n ==> q.nodes[m] == p.nodes[m]))
      && (q.aborted <==> p.aborted || !o.resolves(w, n))
      && StepsFor(q.steps, |p.steps|, p.nodes, if o.resolves(w, n) && NeedsStep(p.nodes, n, w, o) then [n] else [])
  {
  }

  lemma {:induction false} PrepareKeepsContracts(p: Prep, members: seq<nat>, w: nat, o: Oracle)
    requires forall i :: 0 <= i < |members| ==> members[i] < |p.nodes|
    ensures |Prepare(p, members, w, o).steps| >= |p.steps|
    ensures forall k :: 0 <= k < |p.steps| ==> Prepare(p, members, w, o).steps[k].contract == p.steps[k].contract
    decreases |members|
  {
    if members != [] && !p.aborted {
      PrepareKeepsContracts(PrepareOne(p, members[0], w, o), members[1..], w, o);
    }
  }

  lemma SomeUnresolvedCons(members: seq<nat>, w: nat, o: Oracle)
    requires members != []
    ensures SomeUnresolved(members, w, o) <==> !o.resolves(w, members[0]) || SomeUnresolved(members[1..], w, o)
  {
    assert forall i :: 0 < i < |members| ==> members[i] == members[1..][i - 1];
  }

  /** A wave aborts if and only if one of its members does not resolve. */
  lemma {:induction false} AbortsIffUnresolvable(p: Prep, members: seq<nat>, w: nat, o: Oracle)
    requires !p.aborted && forall i :: 0 <= i < |members| ==> members[i] < |p.nodes|
    ensures Prepare(p, members, w, o).aborted <==> SomeUnresolved(members, w, o)
    decreases |members|
  {
    if members != [] {
      var q := PrepareOne(p, members[0], w, o);
      StartShape(p, members[0], w, o);
      SomeUnresolvedCons(members, w, o);
      if o.resolves(w, members[0]) {
        AbortsIffUnresolvable(q, members[1..], w, o);
      } else {
        assert Prepare(q, members[1..], w, o) == q;
      }
    }
  }

  /** The steps a wave journals are exactly those of the members that need one, up to the first member
      that does not resolve. */
  lemma {:induction false} PrepareJournals(p: Prep, members: seq<nat>, w: nat, o: Oracle)
    requires !p.aborted && Distinct(members) && forall i :: 0 <= i < |members| ==> members[i] < |p.nodes|
    ensures StepsFor(Prepare(p, members, w, o).steps, |p.steps|, p.nodes, NewlyJournaled(p.nodes, members, w, o))
    decreases |members|
  {
    if members != [] {
      var n, rest, q := members[0], members[1..], PrepareOne(p, members[0], w, o);
      StartShape(p, n, w, o);
      if o.resolves(w, n) {
        PrepareJournals(q, rest, w, o);
        NewlyJournaledFrame(p.nodes, q.nodes, rest, w, o);
        PrepareKeepsContracts(q, rest, w, o);
        StepsForJoin(p.steps, q.steps, Prepare(q, rest, w, o).steps, p.nodes, q.nodes,
                     if NeedsStep(p.nodes, n, w, o) then [n] else [], NewlyJournaled(p.nodes, rest, w, o));
      } else {
        assert Prepare(q, rest, w, o) == q;
      }
    }
  }

  lemma StepsForJoin(s0: seq<Step>, s1: seq<Step>, s2: seq<Step>, a: seq<Node>, b: seq<Node>, ns: seq<nat>,
                     ms: seq<nat>)
    requires StepsFor(s1, |s0|, a, ns) && StepsFor(s2, |s1|, b, ms) && |a| == |b|
    requires forall m :: 0 <= m < |a| ==> a[m].contract == b[m].contract
    requires forall k :: |s0| <= k < |s1| ==> s2[k].contract == s1[k].contract
    ensures StepsFor(s2, |s0|, a, ns + ms)
  {
  }

  /** A wave that a run reaches. */
  datatype Turn = Turn(row: Row, budget: int, w: nat)

  function Turns(f: Waves, row: Row, budget: int, w: nat): seq<Turn>
    decreases budget
  {
    if budget <= 0 then []
    else
      var wave := f(row, budget, w);
      [Turn(row, budget, w)] +
      if wave.verdict.Continued? && |wave.prepared| > 0
      then Turns(f, RunRow(row, wave.events), budget - |wave.prepared|, w + 1) else []
  }

  function TurnsOf(row: Row, maxParallel: int, maxSteps: int, o: Oracle): seq<Turn> {
    if RunAllowed(row, maxParallel, maxSteps) then Turns(WavesOf(maxParallel, o), row, maxSteps, 0) else []
  }

  // ---- when a run raises ----

  /** The verdict of the last wave the loop reaches; that of a loop with no budget is to go on. */
  function LoopVerdict(f: Waves, row: Row, budget: int, w: nat): Verdict
    decreases budget
  {
    if budget <= 0 then Continued
    else
      var wave := f(row, budget, w);
      if wave.verdict.Continued? && |wave.prepared| > 0
      then LoopVerdict(f, RunRow(row, wave.events), budget - |wave.prepared|, w + 1) else wave.verdict
  }

  /** Some member of the wave a turn would start has a contract that does not resolve. */
  ghost predicate RaisesAt(v: Turn, maxParallel: int, o: Oracle) {
    && maxParallel >= 1 && v.budget >= 1
    && exists n :: n in Chosen(v.row, maxParallel, v.budget) && !o.resolves(v.w, n)
  }

  ghost predicate RaisesSomewhere(vs: seq<Turn>, maxParallel: int, o: Oracle) {
    exists v :: v in vs && RaisesAt(v, maxParallel, o)
  }

  lemma RaisesIff(v: Turn, maxParallel: int, o: Oracle)
    requires maxParallel >= 1 && v.budget >= 1
    ensures RunWave(v.row, maxParallel, v.budget, v.w, o).verdict.Aborted? <==> RaisesAt(v, maxParallel, o)
  {
    var members := Chosen(v.row, maxParallel, v.budget);
    WaveShape(v.row, maxParallel, v.budget, v.w, o);
    if SomeUnresolved(members, v.w, o) {
      var i :| 0 <= i < |members| && !o.resolves(v.w, members[i]);
      assert members[i] in members;
    }
  }

  ghost predicate LoopRaises(f: Waves, row: Row, budget: int, w: nat, maxParallel: int, o: Oracle) {
    LoopVerdict(f, row, budget, w).Aborted? <==> RaisesSomewhere(Turns(f, row, budget, w), maxParallel, o)
  }

  lemma TurnRaises(f: Waves, row: Row, budget: int, w: nat, maxParallel: int, o: Oracle)
    requires budget > 0
    requires f(row, budget, w).verdict.Aborted? <==> RaisesAt(Turn(row, budget, w), maxParallel, o)
    requires var wave := f(row, budget, w);
      wave.verdict.Continued? && |wave.prepared| > 0 ==>
        LoopRaises(f, RunRow(row, wave.events), budget - |wave.prepared|, w + 1, maxParallel, o)
    ensures LoopRaises(f, row, budget, w, maxParallel, o)
  {
    var wave, here := f(row, budget, w), Turn(row, budget, w);
    if wave.verdict.Continued? && |wave.prepared| > 0 {
      var rest := Turns(f, RunRow(row, wave.events), budget - |wave.prepared|, w + 1);
      assert Turns(f, row, budget, w) == [here] + rest;
      RaisesCons(here, rest, maxParallel, o);
    } else {
      assert Turns(f, row, budget, w) == [here] + [];
      RaisesCons(here, [], maxParallel, o);
    }
  }

  ghost predicate RaisesAsSaid(f: Waves, maxParallel: int, o: Oracle) {
    forall row: Row, budget: int, w: nat {:trigger RaisesAt(Turn(row, budget, w), maxParallel, o)} ::
      budget >= 1 ==> (f(row, budget, w).verdict.Aborted? <==> RaisesAt(Turn(row, budget, w), maxParallel, o))
  }

  lemma {:induction false} LoopRaisesIff(f: Waves, row: Row, budget: int, w: nat, maxParallel: int, o: Oracle)
    requires RaisesAsSaid(f, maxParallel, o)
    ensures LoopRaises(f, row, budget, w, maxParallel, o)
    decreases budget
  {
    if budget > 0 {
      var wave := f(row, budget, w);
      assert wave.verdict.Aborted? <==> RaisesAt(Turn(row, budget, w), maxParallel, o);
      if wave.verdict.Continued? && |wave.prepared| > 0 {
        LoopRaisesIff(f, RunRow(row, wave.events), budget - |wave.prepared|, w + 1, maxParallel, o);
      }
      TurnRaises(f, row, budget, w, maxParallel, o);
    }
  }

  lemma RaisesCons(v: Turn, vs: seq<Turn>, maxParallel: int, o: Oracle)
    ensures RaisesSomewhere([v] + vs, maxParallel, o) <==>
            RaisesAt(v, maxParallel, o) || RaisesSomewhere(vs, maxParallel, o)
  {
    assert v in [v] + vs && forall u :: u in vs ==> u in [v] + vs;
  }

  /** An allowed run raises if and only if it reaches a wave with a member whose contract does not resolve. */
  lemma RunRaisesIff(row: Row, maxParallel: int, maxSteps: int, o: Oracle)
    requires RunAllowed(row, maxParallel, maxSteps)
    ensures LoopVerdict(WavesOf(maxParallel, o), row, maxSteps, 0).Aborted? <==>
            RaisesSomewhere(TurnsOf(row, maxParallel, maxSteps, o), maxParallel, o)
  {
    var f := WavesOf(maxParallel, o);
    forall r: Row, budget: int, w: nat | budget >= 1
      ensures f(r, budget, w).verdict.Aborted? <==> RaisesAt(Turn(r, budget, w), maxParallel, o)
    {
      RaisesIff(Turn(r, budget, w), maxParallel, o);
    }
    LoopRaisesIff(f, row, maxSteps, 0, maxParallel, o);
  }

  /** A wave of a run, from the row it starts on: its verdict and the steps it journals. */
  lemma WaveShape(row: Row, maxParallel: int, budget: int, w: nat, o: Oracle)
    requires maxParallel >= 1 && budget >= 1
    ensures var p, members := Prepared(row, maxParallel, budget, w, o), Chosen(row, maxParallel, budget);
      && (RunWave(row, maxParallel, budget, w, o).verdict.Aborted? <==> SomeUnresolved(members, w, o))
      && StepsFor(p.steps, |row.steps|, row.nodes, NewlyJournaled(row.nodes, members, w, o))
  {
    var nodes, members := Refresh(row.nodes), Chosen(row, maxParallel, budget);
    var p := Prep(nodes, row.steps, [], [], false);
    RefreshPartial(row.nodes, row.nodes, Upto(|row.nodes|));
    forall n | 0 <= n < |nodes|
      ensures nodes[n].contract == row.nodes[n].contract && nodes[n].stepNo == row.nodes[n].stepNo
    {
      assert PartialAt(row.nodes, nodes, n);
    }
    AbortsIffUnresolvable(p, members, w, o);
    PrepareJournals(p, members, w, o);
    NewlyJournaledFrame(row.nodes, nodes, members, w, o);
  }
}
