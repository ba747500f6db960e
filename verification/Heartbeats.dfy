/** When the lease guard keeps external calls with the current lease holder (`_LeaseGuard`,
    coordinator.py): the fence protects the journal unconditionally, the outside world only as long
    as heartbeats come in time. */
module Heartbeats {
  import opened Types
  import opened AbstractStore
  import opened Programs
  import opened Ledger
  import opened Interleaving
  import opened Guarantees
  import S = Scenarios
  import opened MemoryStore

  // ---- the guard ----

  /** The guard of one operation, over the in-memory store. */
  class LeaseGuard {
    const store: SagaStore
    const saga: string
    const session: string
    const worker: string
    const ttl: real
    var token: Option<nat>
    var lost: bool

    constructor (store: SagaStore, saga: string, session: string, worker: string, ttl: real, token: Option<nat>)
      ensures this.store == store && this.saga == saga && this.session == session
      ensures this.worker == worker && this.ttl == ttl
      ensures this.token == token && !lost
    {
      this.store, this.saga, this.session, this.worker, this.ttl := store, saga, session, worker, ttl;
      this.token, lost := token, false;
    }

    /** A guard made for a claimed token takes it over; any other acquires one, or fails busy. */
    method Enter(now: real) returns (ok: bool)
      requires store.Valid()
      modifies this, store
      ensures store.Valid() && ok == token.Some? && lost == old(lost)
      ensures old(token).Some? ==> token == old(token) && store.contents == old(store.contents)
      ensures old(token).None? ==>
        (store.contents, token) == Acquire(old(store.contents), saga, session, worker, now, ttl)
      ensures ok && old(token).None? ==>
        saga in store.contents && store.contents[saga].lease == Lease(token.value, Some(Held(worker, now + ttl)))
    {
      if token.None? { token := store.AcquireSagaLease(saga, session, worker, now, ttl); }
      ok := token.Some?;
    }

    /** One heartbeat. Either the lease is ours for another full period, or the guard knows it is lost. */
    method Beat(now: real)
      requires store.Valid() && token.Some? && !lost
      modifies this, store
      ensures store.Valid() && token == old(token)
      ensures !lost ==>
        saga in store.contents && store.contents[saga].lease == Lease(token.value, Some(Held(worker, now + ttl)))
      ensures lost ==> store.contents == old(store.contents)
      ensures lost <==>
        saga !in old(store.contents) || !MayRenew(old(store.contents)[saga].lease, worker, token.value, now)
    {
      Unchanged(store.contents, saga);
      var renewed := store.RenewSagaLease(saga, worker, token.value, now, ttl);
      if !renewed { lost := true; }
    }

    /** `check` only looks at the local flag. */
    method Check() returns (ok: bool)
      ensures ok == !lost
    {
      ok := !lost;
    }

    /** A guard that lost its lease releases nothing. */
    method Exit()
      requires store.Valid()
      modifies store
      ensures store.Valid()
      ensures store.contents == if token.Some? && !lost then Release(old(store.contents), saga, worker, token.value)
                                else old(store.contents)
    {
      if token.Some? && !lost { store.ReleaseSagaLease(saga, worker, token.value); }
    }
  }

  // ---- runs in which heartbeats keep up ----

  /** The session still has something to do. */
  predicate Live(w: World, token: nat) {
    token in w.sessions && (w.sessions[token].Waiting? || w.sessions[token].rest != [])
  }

  /** Leases last; while their holder works, time does not reach their end before the next renewal;
      and a holder releases only when it is done. */
  predicate Timely(w: World, m: Move) {
    match m
    case Tick(dt) =>
      w.lease.held.Some? && Live(w, w.lease.fence) && dt > 0.0 ==> w.now + dt < w.lease.held.value.until
    case TakeLease(_, ttl, _) => ttl > 0.0
    case KeepLease(_, _, ttl) => ttl > 0.0
    case DropLease(_, token) => !Live(w, token)
    case _ => true
  }

  ghost predicate AllTimely(now: real, moves: seq<Move>) {
    forall i :: 0 <= i < |moves| ==> Timely(Run(Begun(now), moves[..i]), moves[i])
  }

  /** Nobody but the holder of an unexpired lease has anything left to do. */
  ghost predicate OnlyHolderLive(w: World) {
    forall t :: Live(w, t) ==> t == w.lease.fence && w.lease.held.Some? && w.now < w.lease.held.value.until
  }

  lemma TimelyNext(w: World, m: Move)
    requires OnlyHolderLive(w) && w.book.strays == {} && Timely(w, m)
    ensures OnlyHolderLive(Next(w, m)) && Next(w, m).book.strays == {}
  {
    var v := Next(w, m);
    forall t | Live(v, t) ensures t == v.lease.fence && v.lease.held.Some? && v.now < v.lease.held.value.until {
      assert Live(w, t) || (m.TakeLease? && t == w.lease.fence + 1);
    }
    if m.Advance? { assert Live(w, m.token) || v == w; }
  }

  lemma {:induction false} TimelyRun(now: real, moves: seq<Move>)
    requires AllTimely(now, moves)
    ensures OnlyHolderLive(Run(Begun(now), moves)) && Reached(now, moves).strays == {}
  {
    if moves != [] {
      var init := moves[..|moves| - 1];
      forall i | 0 <= i < |init| ensures Timely(Run(Begun(now), init[..i]), init[i]) { assert init[..i] == moves[..i]; }
      TimelyRun(now, init);
      TimelyNext(Run(Begun(now), init), moves[|moves| - 1]);
    }
  }

  /** With heartbeats in time no superseded worker ever makes an external call: every saga that ends
      ROLLED_BACK has undone every call ever made for it. */
  lemma TimelyRollbackUndoesEverything(now: real, moves: seq<Move>, i: nat)
    requires AllTimely(now, moves) && AllSound(moves) && Reached(now, moves).row.status.RolledBack?
    requires i < |Reached(now, moves).log| && Reached(now, moves).log[i].Invoke?
    ensures LastOn(Reached(now, moves).log, Reached(now, moves).log[i].k)
         == Some(Compensate(Reached(now, moves).log[i].k, true))
  {
    TimelyRun(now, moves);
    RolledBackUndidEveryCall(now, moves, i);
  }

  // ---- when the beat interval keeps up ----

  /** The pause between two heartbeats. */
  function Interval(ttl: real): real { if ttl / 3.0 > 0.05 then ttl / 3.0 else 0.05 }

  /** Heartbeats at most `late` behind schedule still renew before the lease ends. */
  predicate KeepsUp(ttl: real, late: real) { Interval(ttl) + late < ttl }

  /** Every lease lasts `ttl`; while its holder works, each heartbeat is at most `late` behind schedule,
      counted from the last renewal or the grant; a holder releases only when it is done. */
  predicate OnBeat(w: World, m: Move, ttl: real, late: real) {
    match m
    case Tick(dt) =>
      w.lease.held.Some? && Live(w, w.lease.fence) && dt > 0.0 ==>
        w.now + dt <= w.lease.held.value.until - ttl + Interval(ttl) + late
    case TakeLease(_, t, _) => t == ttl
    case KeepLease(_, _, t) => t == ttl
    case DropLease(_, token) => !Live(w, token)
    case _ => true
  }

  ghost predicate AllOnBeat(now: real, moves: seq<Move>, ttl: real, late: real) {
    forall i :: 0 <= i < |moves| ==> OnBeat(Run(Begun(now), moves[..i]), moves[i], ttl, late)
  }

  /** A third of the lease keeps up with any lateness below the other two thirds; where the floor of
      0.05 seconds applies, with any lateness below what is left, and for shorter leases never. */
  lemma KeepsUpIff(ttl: real, late: real)
    requires ttl > 0.0 && late >= 0.0
    ensures KeepsUp(ttl, late) <==> if ttl > 0.15 then 3.0 * late < 2.0 * ttl else late < ttl - 0.05
    ensures ttl <= 0.05 ==> !KeepsUp(ttl, late)
  {
  }

  lemma OnBeatIsTimely(now: real, moves: seq<Move>, ttl: real, late: real)
    requires AllOnBeat(now, moves, ttl, late) && ttl > 0.0 && KeepsUp(ttl, late)
    ensures AllTimely(now, moves)
  {
    forall i | 0 <= i < |moves| ensures Timely(Run(Begun(now), moves[..i]), moves[i]) {
      assert OnBeat(Run(Begun(now), moves[..i]), moves[i], ttl, late);
    }
  }

  ghost predicate NeverStrays(ttl: real, late: real) {
    forall now: real, moves: seq<Move> :: AllOnBeat(now, moves, ttl, late) ==> Reached(now, moves).strays == {}
  }

  /** Worker "a" journals a step and stalls. */
  function Stalled(t: nat, ttl: real, contract: Contract, o: Oracle): seq<Move> {
    [] + [TakeLease("a", ttl, Execute(Some(contract)))] + [Read(t, o)] + [Advance(t)]
  }

  /** Its lease ends, "b" takes over, and "a" calls. */
  function Overtaken(stalled: seq<Move>, t: nat, ttl: real): seq<Move> {
    stalled + [Tick(ttl)] + [TakeLease("b", ttl, Commit)] + [Advance(t)]
  }

  lemma OnBeatSnoc(now: real, moves: seq<Move>, m: Move, ttl: real, late: real)
    requires AllOnBeat(now, moves, ttl, late) && OnBeat(Run(Begun(now), moves), m, ttl, late)
    ensures AllOnBeat(now, moves + [m], ttl, late)
    ensures Run(Begun(now), moves + [m]) == Next(Run(Begun(now), moves), m)
  {
    S.RunMoveSnoc(Begun(now), moves, m);
    forall i | 0 <= i < |moves + [m]| ensures OnBeat(Run(Begun(now), (moves + [m])[..i]), (moves + [m])[i], ttl, late) {
      assert (moves + [m])[..i] == if i < |moves| then moves[..i] else moves;
    }
  }

  /** The holder of lease `t`, granted at `w.now`, is about to make an external call. */
  ghost predicate AboutToCall(w: World, t: nat, ttl: real) {
    && t in w.sessions && w.sessions[t].Running? && w.sessions[t].rest != [] && w.sessions[t].rest[0] == Invoke(None, 0)
    && w.lease == Lease(t, Some(Held("a", w.now + ttl))) && w.book.strays == {}
  }

  lemma TakesFirst(w: World, t: nat, ttl: real, contract: Contract)
    requires w == Begun(w.now) && t == w.lease.fence + 1
    ensures var v := Next(w, TakeLease("a", ttl, Execute(Some(contract))));
      && t in v.sessions && v.sessions[t] == Waiting(Execute(Some(contract)))
      && v.lease == Lease(t, Some(Held("a", v.now + ttl))) && v.book == w.book
  {
  }

  lemma JournalsFirst(w: World, t: nat, ttl: real, contract: Contract, o: Oracle)
    requires t in w.sessions && w.sessions[t] == Waiting(Execute(Some(contract))) && TriesFrom(1, o.forward) >= 1
    requires w.lease == Lease(t, Some(Held("a", w.now + ttl))) && w.book == Begun(w.now).book
    ensures AboutToCall(Next(Next(w, Read(t, o)), Advance(t)), t, ttl)
  {
    var v := Next(w, Read(t, o));
    var events := ExecuteProgram(w.book.row, Some(contract), o);
    assert events[0] == Write(NewStep(FreshStep(contract))) && events[1] == Invoke(None, 0);
    assert v.sessions[t] == Running(events);
    assert Next(v, Advance(t)).sessions[t] == Running(events[1..]);
  }

  lemma CallsTooLate(w: World, t: nat, ttl: real, late: real)
    requires AboutToCall(w, t, ttl) && ttl > 0.0 && !KeepsUp(ttl, late)
    ensures var u := Next(w, Tick(ttl));
      var v := Next(u, TakeLease("b", ttl, Commit));
      && OnBeat(w, Tick(ttl), ttl, late) && OnBeat(u, TakeLease("b", ttl, Commit), ttl, late)
      && OnBeat(v, Advance(t), ttl, late) && Next(v, Advance(t)).book.strays == {0}
  {
    var u := Next(w, Tick(ttl));
    var v := Next(u, TakeLease("b", ttl, Commit));
    assert v.lease.fence == t + 1 && v.sessions[t] == w.sessions[t];
  }

  lemma HolderStalls(now: real, t: nat, ttl: real, late: real, contract: Contract, o: Oracle)
    requires t == Begun(now).lease.fence + 1 && ttl > 0.0 && TriesFrom(1, o.forward) >= 1
    ensures var moves := Stalled(t, ttl, contract, o);
      AllOnBeat(now, moves, ttl, late) && AboutToCall(Run(Begun(now), moves), t, ttl)
  {
    var take := TakeLease("a", ttl, Execute(Some(contract)));
    var m1 := [] + [take];
    var m2 := m1 + [Read(t, o)];
    assert Run(Begun(now), m1) == Next(Begun(now), take) && AllOnBeat(now, m1, ttl, late) by {
      OnBeatSnoc(now, [], take, ttl, late);
    }
    assert Run(Begun(now), m2) == Next(Run(Begun(now), m1), Read(t, o)) && AllOnBeat(now, m2, ttl, late) by {
      OnBeatSnoc(now, m1, Read(t, o), ttl, late);
    }
    OnBeatSnoc(now, m2, Advance(t), ttl, late);
    TakesFirst(Begun(now), t, ttl, contract);
    JournalsFirst(Next(Begun(now), take), t, ttl, contract, o);
  }

  lemma OvertakenStrays(now: real, stalled: seq<Move>, t: nat, ttl: real, late: real)
    requires AllOnBeat(now, stalled, ttl, late) && AboutToCall(Run(Begun(now), stalled), t, ttl)
    requires ttl > 0.0 && !KeepsUp(ttl, late)
    ensures AllOnBeat(now, Overtaken(stalled, t, ttl), ttl, late)
    ensures Reached(now, Overtaken(stalled, t, ttl)).strays == {0}
  {
    var again := TakeLease("b", ttl, Commit);
    CallsTooLate(Run(Begun(now), stalled), t, ttl, late);
    OnBeatSnoc(now, stalled, Tick(ttl), ttl, late);
    OnBeatSnoc(now, stalled + [Tick(ttl)], again, ttl, late);
    OnBeatSnoc(now, stalled + [Tick(ttl)] + [again], Advance(t), ttl, late);
  }

  /** The exact condition: in every run whose heartbeats are at most `late` behind, no superseded worker
      makes an external call, if and only if the beat interval and that lateness fit into the lease. */
  lemma NeverStraysIffKeepsUp(ttl: real, late: real, contract: Contract, o: Oracle)
    requires ttl > 0.0 && late >= 0.0 && TriesFrom(1, o.forward) >= 1
    ensures NeverStrays(ttl, late) <==> KeepsUp(ttl, late)
  {
    if KeepsUp(ttl, late) {
      forall now: real, moves: seq<Move> | AllOnBeat(now, moves, ttl, late) ensures Reached(now, moves).strays == {} {
        OnBeatIsTimely(now, moves, ttl, late);
        TimelyRun(now, moves);
      }
    } else {
      var now, t := 0.0, Begun(0.0).lease.fence + 1;
      HolderStalls(now, t, ttl, late, contract, o);
      OvertakenStrays(now, Stalled(t, ttl, contract, o), t, ttl, late);
    }
  }
}
