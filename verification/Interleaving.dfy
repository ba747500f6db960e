/** Any number of workers running coordinator operations on one saga: acquisitions, reads,
    fenced writes, external calls, lease expiry and crashes interleave freely. */
module Interleaving {
  import opened Types
  import opened AbstractStore
  import opened Engine
  import opened Programs
  import opened Ledger
  import opened PlanSafety
  import opened RollbackSafety
  import opened WaveSafety

  /** A lease holder: it has yet to read the row, or it has this much of its operation left. */
  datatype Session = Waiting(op: Op) | Running(rest: seq<Event>)

  /** `listing` holds the sessions that have written ROLLING_BACK and may have yet to list the steps. */
  datatype World = World(book: Book, lease: Lease, now: real, sessions: map<nat, Session>, listing: set<nat>)

  datatype Move =
    | Tick(dt: real)
    | TakeLease(worker: string, ttl: real, op: Op)
    | KeepLease(worker: string, token: nat, ttl: real)
    | DropLease(worker: string, token: nat)
    | Read(token: nat, oracle: Oracle)
    | List(token: nat, oracle: Oracle)
    | Advance(token: nat)
    | Crash(token: nat)

  function SliceOf(w: World): Slice { Slice("", w.book.row, w.lease) }

  /** One event of one session. Writes go through the fence; a refused write ends the session.
      External calls are not fenced: a superseded worker may still make one. */
  function Performed(w: World, token: nat, e: Event, rest: seq<Event>): World {
    match e
    case Write(c) =>
      var (slice, result) := WriteOn(SliceOf(w), Some(token), c);
      if result.Accepted?
      then
        var listing := if c == SetSaga(Some(RollingBack), None) then w.listing + {token} else w.listing - {token};
        w.(book := w.book.(row := slice.row), sessions := w.sessions[token := Running(rest)], listing := listing)
      else w.(sessions := w.sessions - {token})
    case Slip(_) =>
      w.(book := if token == w.lease.fence then StepBook(w.book, e) else w.book,
         sessions := w.sessions[token := Running(rest)], listing := w.listing - {token})
    case _ =>
      var strays := if token == w.lease.fence then w.book.strays else w.book.strays + {e.k};
      w.(book := StepBook(w.book, e).(strays := strays),
         sessions := w.sessions[token := Running(rest)], listing := w.listing - {token})
  }

  predicate Working(w: World, token: nat) {
    token in w.sessions && w.sessions[token].Running? && w.sessions[token].rest != []
  }

  /** The session goes on with what it has listed. */
  function Relisted(w: World, token: nat, rest: seq<Event>): World {
    w.(sessions := w.sessions[token := Running(rest)], listing := w.listing - {token})
  }

  /** A recovery claim is an acquisition of a pending saga. A rollback that goes on without `List` listed
      its steps right after its first write. */
  function Next(w: World, m: Move): World {
    match m
    case Tick(dt) => w.(now := if dt > 0.0 then w.now + dt else w.now)
    case TakeLease(worker, ttl, op) =>
      var (slice, token) := AcquireOn(SliceOf(w), "", worker, w.now, ttl);
      if token.None? || (op.Recover? && !IsPending(w.book.row)) then w
      else w.(lease := slice.lease, sessions := w.sessions[token.value := Waiting(op)])
    case KeepLease(worker, token, ttl) => w.(lease := Renewed(w.lease, worker, token, w.now, ttl))
    case DropLease(worker, token) => w.(lease := Released(w.lease, worker, token))
    case Read(token, oracle) =>
      if token in w.sessions && w.sessions[token].Waiting?
      then w.(sessions := w.sessions[token := Running(Program(w.sessions[token].op, w.book.row, oracle))])
      else w
    case List(token, oracle) =>
      if token in w.listing && Working(w, token)
      then Relisted(w, token, RollbackTail(w.book.row, oracle))
      else w
    case Advance(token) =>
      if Working(w, token)
      then Performed(w, token, w.sessions[token].rest[0], w.sessions[token].rest[1..])
      else w
    case Crash(token) => w.(sessions := w.sessions - {token})
  }

  function Run(w: World, moves: seq<Move>): World {
    if moves == [] then w else Next(Run(w, moves[..|moves| - 1]), moves[|moves| - 1])
  }

  /** The world right after `begin`. */
  function Begun(now: real): World {
    World(Book(Row(Active, [], []), [], false, {}, true), Lease(0, None), now, map[], {})
  }

  // ---- the inductive invariant ----

  /** The calls a worker can still make without another write are all for its linked steps. */
  ghost predicate Harmless(row: Row, rest: seq<Event>)
    decreases |rest|
  {
    rest != [] && !rest[0].Write? ==>
      && (rest[0].Slip? || rest[0].k < |row.steps|)
      && Links(row.nodes, rest[0])
      && Harmless(row, rest[1..])
  }

  /** The newest session, and only it, can still change the row. */
  ghost predicate NewestOk(b: Book, s: Session) {
    match s
    case Waiting(op) => op.Recover? ==> !Terminal(b.row.status)
    case Running(rest) => Safe(b, rest)
  }

  ghost predicate Inv(w: World) {
    && Good(w.book)
    && (forall t :: t in w.sessions || t in w.listing ==> t <= w.lease.fence)
    && (w.lease.fence in w.listing ==> w.book.row.status.RollingBack?)
    && (w.lease.fence in w.sessions ==> NewestOk(w.book, w.sessions[w.lease.fence]))
    && (forall t :: t in w.sessions && w.sessions[t].Running? ==> Harmless(w.book.row, w.sessions[t].rest))
  }

  lemma {:induction false} SafeIsHarmless(b: Book, rest: seq<Event>)
    requires Safe(b, rest)
    ensures Harmless(b.row, rest)
    decreases |rest|
  {
    if rest != [] && !rest[0].Write? {
      SafeIsHarmless(StepBook(b, rest[0]), rest[1..]);
    }
  }

  lemma {:induction false} HarmlessPersists(a: Row, b: Row, rest: seq<Event>)
    requires Harmless(a, rest) && Evolves(a, b)
    ensures Harmless(b, rest)
    decreases |rest|
  {
    if rest != [] && !rest[0].Write? {
      HarmlessPersists(a, b, rest[1..]);
      if rest[0].Invoke? && rest[0].node.Some? {
        assert NodeEvolves(a.nodes[rest[0].node.value], b.nodes[rest[0].node.value]);
      }
    }
  }

  /** Every program opens with a write, so a worker that reads too late can do nothing. */
  lemma OpensWithWrite(op: Op, row: Row, o: Oracle)
    ensures Program(op, row, o) != [] ==> Program(op, row, o)[0].Write?
  {
    if op.RunReady? { RunOpensWithWrite(row, op.maxParallel, op.maxSteps, o); }
  }

  lemma RunOpensWithWrite(row: Row, maxParallel: int, maxSteps: int, o: Oracle)
    ensures RunProgram(row, maxParallel, maxSteps, o) != [] ==> RunProgram(row, maxParallel, maxSteps, o)[0].Write?
  {
    if RunAllowed(row, maxParallel, maxSteps) {
      WaveOpensWithWrite(row, maxParallel, maxSteps, 0, o);
      var wave := WavesOf(maxParallel, o)(row, maxSteps, 0);
      assert wave == RunWave(row, maxParallel, maxSteps, 0, o);
    }
  }

  lemma WaveOpensWithWrite(row: Row, maxParallel: int, budget: int, w: nat, o: Oracle)
    requires maxParallel >= 1 && budget >= 1
    ensures var wave := RunWave(row, maxParallel, budget, w, o);
      && (wave.events != [] ==> wave.events[0].Write?)
      && (wave.events == [] ==> !wave.verdict.Continued?)
  {
    var nodes := Refresh(row.nodes);
    var ready := ReadyNodes(nodes);
    PrepareWrites(Prep(nodes, row.steps, [], [], false), ready[..Min(Min(maxParallel, budget), |ready|)], w, o);
  }

  lemma {:induction false} PrepareWrites(p: Prep, wave: seq<nat>, w: nat, o: Oracle)
    requires forall i :: 0 <= i < |wave| ==> wave[i] < |p.nodes|
    requires forall i :: 0 <= i < |p.events| ==> p.events[i].Write?
    ensures forall i :: 0 <= i < |Prepare(p, wave, w, o).events| ==> Prepare(p, wave, w, o).events[i].Write?
    decreases |wave|
  {
    if wave != [] && !p.aborted {
      PrepareWrites(PrepareOne(p, wave[0], w, o), wave[1..], w, o);
    }
  }

  lemma ProgramSafe(b: Book, op: Op, o: Oracle)
    requires Good(b) && (op.Recover? ==> !Terminal(b.row.status))
    ensures Safe(b, Program(op, b.row, o))
  {
    match op
    case Execute(contract) => ExecuteSafe(b, contract, o);
    case Plan(request) => PlanSafe(b, request);
    case Approve(n, approved) => ApproveSafe(b, n, approved);
    case Retry(n, force) => RetrySafe(b, n, force);
    case RunReady(maxParallel, maxSteps) => RunSafe(b, maxParallel, maxSteps, o);
    case Commit => CommitSafe(b);
    case RollBack => RollbackSafe(b, o);
    case Recover => RecoverSafe(b, o);
  }

  lemma {:induction false} SafeCut(b: Book, events: seq<Event>, n: nat)
    requires Safe(b, events) && n <= |events|
    ensures Good(RunBook(b, events[..n]))
    decreases n
  {
    if n > 0 {
      SafeCut(StepBook(b, events[0]), events[1..], n - 1);
      assert events[..n][1..] == events[1..][..n - 1] && events[..n][0] == events[0];
    } else {
      assert RunBook(b, events[..n]) == b;
    }
  }

  /** Whatever the history of the row, it stays good however much of the events has happened. */
  ghost predicate GoodAtEveryCut(row: Row, events: seq<Event>) {
    forall b: Book, n: nat {:trigger RunBook(b, events[..n])} ::
      b.row == row && Good(b) && n <= |events| ==> Good(RunBook(b, events[..n]))
  }

  lemma ProgramGoodAtEveryCut(row: Row, op: Op, o: Oracle)
    requires op.Recover? ==> !Terminal(row.status)
    ensures GoodAtEveryCut(row, Program(op, row, o))
  {
    forall b: Book, n: nat | b.row == row && Good(b) && n <= |Program(op, row, o)|
      ensures Good(RunBook(b, Program(op, row, o)[..n]))
    {
      ProgramSafe(b, op, o);
      SafeCut(b, Program(op, row, o), n);
    }
  }

  lemma IdentifiedPersists(a: Book, b: Book)
    requires Identified(a) && Evolves(a.row, b.row) && b.log == a.log
    ensures Identified(b)
  {
    forall i | 0 <= i < |b.log|
      ensures (b.log[i].Invoke? || b.log[i].Compensate?) && b.log[i].k < |b.row.steps| && Links(b.row.nodes, b.log[i])
    {
      if b.log[i].Invoke? && b.log[i].node.Some? {
        assert NodeEvolves(a.row.nodes[b.log[i].node.value], b.row.nodes[b.log[i].node.value]);
      }
    }
  }

  lemma LastOnSnoc(log: seq<Event>, e: Event, k: nat)
    ensures LastOn(log + [e], k) == if Touches(e, k) then Some(e) else LastOn(log, k)
  {
    assert (log + [e])[..|log|] == log;
  }

  /** Two histories agree about every step without stray calls. */
  ghost predicate SameCalls(a: seq<Event>, b: seq<Event>, strays: set<nat>) {
    forall k: nat :: k !in strays ==> LastOn(a, k) == LastOn(b, k)
  }

  /** A stray call does not disturb the newest session's program. */
  lemma {:induction false} StraySafe(b: Book, log: seq<Event>, strays: set<nat>, rest: seq<Event>)
    requires Safe(b, rest) && Identified(b.(log := log)) && b.strays <= strays && SameCalls(b.log, log, strays)
    ensures Safe(b.(log := log, strays := strays), rest)
    decreases |rest|
  {
    var s := b.(log := log, strays := strays);
    assert Identified(s);
    if rest != [] {
      var b', s' := StepBook(b, rest[0]), StepBook(s, rest[0]);
      if rest[0].Write? {
        IdentifiedPersists(s, s');
      }
      assert Identified(b'.(log := s'.log));
      forall k: nat | k !in strays ensures LastOn(b'.log, k) == LastOn(s'.log, k) {
        LastOnSnoc(b.log, rest[0], k);
        LastOnSnoc(log, rest[0], k);
      }
      StraySafe(b', s'.log, strays, rest[1..]);
      assert s' == b'.(log := s'.log, strays := strays);
    }
  }

  // ---- preservation, move by move ----

  lemma RowStep(w: World, v: World)
    requires Inv(w) && Evolves(w.book.row, v.book.row)
    requires v.sessions.Keys <= w.sessions.Keys && v.lease.fence == w.lease.fence
    requires forall t :: t in v.sessions && t != w.lease.fence ==> v.sessions[t] == w.sessions[t]
    ensures forall t :: t in v.sessions && t != w.lease.fence && v.sessions[t].Running? ==>
              Harmless(v.book.row, v.sessions[t].rest)
  {
    forall t | t in v.sessions && t != w.lease.fence && v.sessions[t].Running?
      ensures Harmless(v.book.row, v.sessions[t].rest)
    {
      HarmlessPersists(w.book.row, v.book.row, v.sessions[t].rest);
    }
  }

  lemma NewestPerforms(w: World)
    requires Inv(w) && w.lease.fence in w.sessions
    requires w.sessions[w.lease.fence].Running? && w.sessions[w.lease.fence].rest != []
    ensures Inv(Next(w, Advance(w.lease.fence)))
    ensures Evolves(w.book.row, Next(w, Advance(w.lease.fence)).book.row)
  {
    var rest := w.sessions[w.lease.fence].rest;
    var v := Next(w, Advance(w.lease.fence));
    assert v.book == StepBook(w.book, rest[0]);
    assert Safe(v.book, rest[1..]);
    SafeIsHarmless(v.book, rest[1..]);
    RowStep(w, v);
  }

  lemma StaleCallIdentified(w: World, token: nat)
    requires Inv(w) && token in w.sessions && token != w.lease.fence
    requires w.sessions[token].Running? && w.sessions[token].rest != [] && !w.sessions[token].rest[0].Write?
    ensures Good(Next(w, Advance(token)).book)
    ensures Next(w, Advance(token)).book.row == w.book.row
    ensures w.lease.fence in w.sessions ==> NewestOk(Next(w, Advance(token)).book, w.sessions[w.lease.fence])
  {
    var e := w.sessions[token].rest[0];
    var v := Next(w, Advance(token));
    assert Harmless(w.book.row, w.sessions[token].rest);
    if !e.Slip? {
      assert v.book == w.book.(log := w.book.log + [e], strays := w.book.strays + {e.k});
      forall k: nat | k !in v.book.strays ensures LastOn(w.book.log, k) == LastOn(v.book.log, k) {
        LastOnSnoc(w.book.log, e, k);
      }
      assert Identified(w.book.(log := v.book.log));
      assert Identified(v.book);
      if w.lease.fence in w.sessions && w.sessions[w.lease.fence].Running? {
        StraySafe(w.book, v.book.log, v.book.strays, w.sessions[w.lease.fence].rest);
      }
    }
  }

  lemma EvolvesSelf(row: Row)
    ensures Evolves(row, row)
  {
  }

  lemma StalePerforms(w: World, token: nat)
    requires Inv(w) && token in w.sessions && token != w.lease.fence
    requires w.sessions[token].Running? && w.sessions[token].rest != []
    ensures Inv(Next(w, Advance(token)))
    ensures Evolves(w.book.row, Next(w, Advance(token)).book.row)
  {
    EvolvesSelf(w.book.row);
    assert Harmless(w.book.row, w.sessions[token].rest);
    if !w.sessions[token].rest[0].Write? {
      StaleCallIdentified(w, token);
    }
  }

  lemma ReadKeeps(w: World, token: nat, o: Oracle)
    requires Inv(w) && token in w.sessions && w.sessions[token].Waiting?
    ensures Inv(Next(w, Read(token, o)))
  {
    var op := w.sessions[token].op;
    OpensWithWrite(op, w.book.row, o);
    if token == w.lease.fence {
      ProgramSafe(w.book, op, o);
    }
    assert Harmless(w.book.row, Program(op, w.book.row, o));
  }

  /** Whatever the saga has become, what a late listing calls for is only for journaled steps. */
  lemma TailHarmless(b: Book, o: Oracle)
    requires Good(b)
    ensures Harmless(b.row, RollbackTail(b.row, o))
    ensures b.row.status.RollingBack? ==> Safe(b, RollbackTail(b.row, o))
  {
    var c := b.(row := b.row.(status := RollingBack));
    RollbackSafe(c, o);
    assert StepBook(c, SetStatus(RollingBack)) == c;
    assert RollbackProgram(c.row, o)[0] == SetStatus(RollingBack);
    SafeIsHarmless(c, RollbackTail(b.row, o));
    EvolvesSelf(b.row);
    HarmlessPersists(c.row, b.row, RollbackTail(b.row, o));
    assert b.row.status.RollingBack? ==> c == b;
  }

  lemma NewRestKeeps(w: World, token: nat, rest: seq<Event>)
    requires Inv(w) && token in w.sessions && Harmless(w.book.row, rest)
    requires token == w.lease.fence ==> Safe(w.book, rest)
    ensures Inv(Relisted(w, token, rest))
  {
  }

  lemma ListFits(w: World, token: nat, o: Oracle, rest: seq<Event>)
    requires Inv(w) && token in w.listing && token in w.sessions && rest == RollbackTail(w.book.row, o)
    ensures Harmless(w.book.row, rest) && (token == w.lease.fence ==> Safe(w.book, rest))
  {
    assert Good(w.book) && (token == w.lease.fence ==> w.book.row.status.RollingBack?);
    TailHarmless(w.book, o);
  }

  lemma ListKeeps(w: World, token: nat, o: Oracle, rest: seq<Event>)
    requires Inv(w) && token in w.listing && Working(w, token) && rest == RollbackTail(w.book.row, o)
    ensures Inv(Relisted(w, token, rest))
  {
    ListFits(w, token, o, rest);
    NewRestKeeps(w, token, rest);
  }

  lemma TakeKeeps(w: World, worker: string, ttl: real, op: Op)
    requires Inv(w)
    ensures Inv(Next(w, TakeLease(worker, ttl, op)))
  {
  }

  lemma NextKeeps(w: World, m: Move)
    requires Inv(w)
    ensures Inv(Next(w, m))
    ensures Evolves(w.book.row, Next(w, m).book.row)
  {
    EvolvesSelf(w.book.row);
    match m
    case Tick(_) =>
    case TakeLease(worker, ttl, op) => TakeKeeps(w, worker, ttl, op);
    case KeepLease(_, _, _) =>
    case DropLease(_, _) =>
    case Read(token, o) =>
      if token in w.sessions && w.sessions[token].Waiting? { ReadKeeps(w, token, o); }
    case List(token, o) =>
      if token in w.listing && Working(w, token) {
        ListKeeps(w, token, o, RollbackTail(w.book.row, o));
      }
    case Advance(token) =>
      if Working(w, token) {
        if token == w.lease.fence { NewestPerforms(w); } else { StalePerforms(w, token); }
      }
    case Crash(_) =>
  }

  lemma {:induction false} AlwaysInv(now: real, moves: seq<Move>)
    ensures Inv(Run(Begun(now), moves))
  {
    if moves != [] {
      AlwaysInv(now, moves[..|moves| - 1]);
      NextKeeps(Run(Begun(now), moves[..|moves| - 1]), moves[|moves| - 1]);
    }
  }

  lemma {:induction false} RunSplit(w: World, a: seq<Move>, b: seq<Move>)
    ensures Run(w, a + b) == Run(Run(w, a), b)
  {
    if b == [] {
      assert a + b == a;
    } else {
      assert (a + b)[..|a + b| - 1] == a + b[..|b| - 1];
      RunSplit(w, a, b[..|b| - 1]);
    }
  }
}
