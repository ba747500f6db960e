/** Many workers on one saga: acquire, renew, expiry, release, read, fenced write and crash
    in any interleaving, over the abstract store. */
module FencedProtocol {
  import opened Types
  import opened AbstractStore

  /** The lease granted with token `i + 1`, valid from `start` to `until` (renewals move
      `until`, a release cuts it). */
  datatype Tenure = Tenure(worker: string, start: real, until: real)

  datatype Entry = Entry(token: nat, change: Change)

  /** `views` is what each live worker believes the row to be: its last read plus its own
      accepted writes. `log` lists the accepted writes in order. */
  datatype Site = Site(
    slice: Slice,
    now: real,
    grants: seq<Tenure>,
    views: map<nat, Row>,
    log: seq<Entry>)

  datatype SiteMove =
    | Tick(dt: real)
    | TryAcquire(session: string, worker: string, ttl: real)
    | TryRenew(worker: string, token: nat, ttl: real)
    | GiveUp(worker: string, token: nat)
    | Read(token: nat)
    | TryWrite(token: nat, change: Change)
    | Crash(token: nat)

  function Earlier(a: real, b: real): real { if a <= b then a else b }

  function SiteNext(p: Site, m: SiteMove): Site {
    match m
    case Tick(dt) => p.(now := if dt > 0.0 then p.now + dt else p.now)
    case TryAcquire(session, worker, ttl) =>
      var (slice, token) := AcquireOn(p.slice, session, worker, p.now, ttl);
      if token.Some? then p.(slice := slice, grants := p.grants + [Tenure(worker, p.now, p.now + ttl)]) else p
    case TryRenew(worker, token, ttl) =>
      if MayRenew(p.slice.lease, worker, token, p.now) && p.grants != [] then
        p.(slice := p.slice.(lease := Renewed(p.slice.lease, worker, token, p.now, ttl)),
           grants := p.grants[|p.grants| - 1 := p.grants[|p.grants| - 1].(until := p.now + ttl)])
      else p
    case GiveUp(worker, token) =>
      var lease := Released(p.slice.lease, worker, token);
      if lease != p.slice.lease && p.grants != [] then
        var last := p.grants[|p.grants| - 1];
        p.(slice := p.slice.(lease := lease),
           grants := p.grants[|p.grants| - 1 := last.(until := Earlier(last.until, p.now))])
      else p
    case Read(token) => if 1 <= token <= p.slice.lease.fence then p.(views := p.views[token := p.slice.row]) else p
    case TryWrite(token, change) =>
      var (slice, result) := WriteOn(p.slice, Some(token), change);
      if result.Accepted? && token >= 1 then
        p.(slice := slice,
           log := p.log + [Entry(token, change)],
           views := if token in p.views then p.views[token := Apply(p.views[token], change)] else p.views)
      else p.(views := p.views - {token})
    case Crash(token) => p.(views := p.views - {token})
  }

  function SiteRun(p: Site, moves: seq<SiteMove>): Site {
    if moves == [] then p else SiteNext(SiteRun(p, moves[..|moves| - 1]), moves[|moves| - 1])
  }

  /** A saga just created by `create_saga`: no lease, no token handed out. */
  function Created(session: string, row: Row, now: real): Site {
    Site(Slice(session, row, Lease(0, None)), now, [], map[], [])
  }

  function Changes(log: seq<Entry>): (r: seq<Change>)
    ensures |r| == |log|
  {
    seq(|log|, i requires 0 <= i < |log| => log[i].change)
  }

  ghost predicate Disjoint(grants: seq<Tenure>) {
    forall i, j :: 0 <= i < j < |grants| ==> grants[i].until <= grants[j].start
  }

  ghost predicate LeaseInv(p: Site) {
    && |p.grants| == p.slice.lease.fence
    && (forall i :: 0 <= i < |p.grants| ==> p.grants[i].start <= p.now)
    && Disjoint(p.grants)
    && (p.slice.lease.held.Some? ==>
          p.grants != [] && p.slice.lease.held.value ==
          Held(p.grants[|p.grants| - 1].worker, p.grants[|p.grants| - 1].until))
    && (p.slice.lease.held.None? && p.grants != [] ==> p.grants[|p.grants| - 1].until <= p.now)
  }

  ghost predicate ByToken(log: seq<Entry>, fence: nat) {
    && (forall i, j :: 0 <= i < j < |log| ==> log[i].token <= log[j].token)
    && (forall i :: 0 <= i < |log| ==> 1 <= log[i].token <= fence)
  }

  ghost predicate WriteInv(p: Site, start: Row) {
    && ByToken(p.log, p.slice.lease.fence)
    && p.slice.row == Replay(start, Changes(p.log))
    && (forall t :: t in p.views ==> 1 <= t <= p.slice.lease.fence)
    && (p.slice.lease.fence in p.views ==> p.views[p.slice.lease.fence] == p.slice.row)
  }

  lemma NextKeepsLeases(p: Site, m: SiteMove)
    requires LeaseInv(p)
    ensures LeaseInv(SiteNext(p, m))
    ensures p.slice.lease.fence <= SiteNext(p, m).slice.lease.fence
    ensures p.now <= SiteNext(p, m).now
  {
  }

  lemma NextKeepsWrites(p: Site, m: SiteMove, start: Row)
    requires WriteInv(p, start)
    ensures WriteInv(SiteNext(p, m), start)
  {
    var q := SiteNext(p, m);
    if q.log != p.log {
      assert Changes(q.log)[..|q.log| - 1] == Changes(p.log);
    }
  }

  lemma {:induction false} RunKeeps(session: string, row: Row, now: real, moves: seq<SiteMove>)
    ensures LeaseInv(SiteRun(Created(session, row, now), moves))
    ensures WriteInv(SiteRun(Created(session, row, now), moves), row)
  {
    if moves != [] {
      RunKeeps(session, row, now, moves[..|moves| - 1]);
      NextKeepsLeases(SiteRun(Created(session, row, now), moves[..|moves| - 1]), moves[|moves| - 1]);
      NextKeepsWrites(SiteRun(Created(session, row, now), moves[..|moves| - 1]), moves[|moves| - 1], row);
    }
  }

  lemma {:induction false} ReplayAppend(row: Row, a: seq<Change>, b: seq<Change>)
    ensures Replay(row, a + b) == Replay(Replay(row, a), b)
  {
    if b == [] {
      assert a + b == a;
    } else {
      assert (a + b)[..|a + b| - 1] == a + b[..|b| - 1];
      ReplayAppend(row, a, b[..|b| - 1]);
    }
  }

  /** Where a token-ordered log passes from earlier sessions to those of `token` and later. */
  function Boundary(log: seq<Entry>, token: nat): (n: nat)
    requires forall i, j :: 0 <= i < j < |log| ==> log[i].token <= log[j].token
    ensures n <= |log|
    ensures forall i :: 0 <= i < n ==> log[i].token < token
    ensures forall i :: n <= i < |log| ==> token <= log[i].token
  {
    if log == [] || log[0].token >= token then 0 else 1 + Boundary(log[1..], token)
  }

  /** The row is the replay of the first `n` accepted writes, all from sessions before
      `token`, followed by the session of `token` itself. */
  ghost predicate SerialAt(p: Site, start: Row, token: nat, n: nat) {
    && n <= |p.log|
    && (forall i :: 0 <= i < n ==> p.log[i].token < token)
    && (forall i :: n <= i < |p.log| ==> p.log[i].token == token)
    && p.slice.row == Replay(Replay(start, Changes(p.log[..n])), Changes(p.log[n..]))
  }

  lemma NewestIsSerial(p: Site, start: Row)
    requires WriteInv(p, start)
    ensures SerialAt(p, start, p.slice.lease.fence, Boundary(p.log, p.slice.lease.fence))
  {
    var n := Boundary(p.log, p.slice.lease.fence);
    assert Changes(p.log) == Changes(p.log[..n]) + Changes(p.log[n..]);
    ReplayAppend(start, Changes(p.log[..n]), Changes(p.log[n..]));
  }

  /** Fenced isolation. In every interleaving, a write is accepted only from the newest
      token; what its worker believes the row to be is then what is stored; and that row is
      the replay of all earlier sessions' writes followed by its own, so the run has the
      effect of the sessions one after another in token order. */
  lemma FencedIsolation(session: string, row: Row, now: real, moves: seq<SiteMove>, token: nat, change: Change)
    requires var p := SiteRun(Created(session, row, now), moves);
      token in p.views && WriteOn(p.slice, Some(token), change).1.Accepted?
    ensures var p := SiteRun(Created(session, row, now), moves);
      p.views[token] == p.slice.row && exists n: nat :: SerialAt(p, row, token, n)
  {
    RunKeeps(session, row, now, moves);
    NewestIsSerial(SiteRun(Created(session, row, now), moves), row);
  }

  /** Accepted writes are ordered by token, and replaying them gives the stored row. */
  lemma AcceptedInTokenOrder(session: string, row: Row, now: real, moves: seq<SiteMove>)
    ensures var p := SiteRun(Created(session, row, now), moves);
      && (forall i, j :: 0 <= i < j < |p.log| ==> p.log[i].token <= p.log[j].token)
      && p.slice.row == Replay(row, Changes(p.log))
  {
    RunKeeps(session, row, now, moves);
  }

  /** Lease exclusivity: tokens number the grants 1, 2, 3, ... and no instant lies inside two grants. */
  lemma LeaseExclusive(session: string, row: Row, now: real, moves: seq<SiteMove>, i: nat, j: nat, x: real)
    requires var p := SiteRun(Created(session, row, now), moves);
      && i < |p.grants| && j < |p.grants|
      && p.grants[i].start <= x < p.grants[i].until
      && p.grants[j].start <= x < p.grants[j].until
    ensures i == j
    ensures |SiteRun(Created(session, row, now), moves).grants|
            == SiteRun(Created(session, row, now), moves).slice.lease.fence
  {
    RunKeeps(session, row, now, moves);
  }

  lemma {:induction false} ExecuteAppend(p: Site, a: seq<SiteMove>, b: seq<SiteMove>)
    ensures SiteRun(p, a + b) == SiteRun(SiteRun(p, a), b)
  {
    if b == [] {
      assert a + b == a;
    } else {
      assert (a + b)[..|a + b| - 1] == a + b[..|b| - 1];
      ExecuteAppend(p, a, b[..|b| - 1]);
    }
  }

  lemma {:induction false} FenceGrows(p: Site, moves: seq<SiteMove>)
    requires LeaseInv(p)
    ensures LeaseInv(SiteRun(p, moves))
    ensures p.slice.lease.fence <= SiteRun(p, moves).slice.lease.fence
  {
    if moves != [] {
      FenceGrows(p, moves[..|moves| - 1]);
      NextKeepsLeases(SiteRun(p, moves[..|moves| - 1]), moves[|moves| - 1]);
    }
  }

  /** Once a later lease was granted, its predecessors can never again renew, release or write,
      whatever happens in between. */
  lemma SupersededIsPowerless(session: string, row: Row, now: real, a: seq<SiteMove>, b: seq<SiteMove>, token: nat,
                              worker: string, ttl: real, change: Change)
    requires token < SiteRun(Created(session, row, now), a).slice.lease.fence
    ensures var p := SiteRun(Created(session, row, now), a + b);
      && SiteNext(p, TryRenew(worker, token, ttl)) == p
      && SiteNext(p, GiveUp(worker, token)) == p
      && SiteNext(p, TryWrite(token, change)).slice == p.slice
      && WriteOn(p.slice, Some(token), change).1.LeaseLost?
  {
    RunKeeps(session, row, now, a);
    ExecuteAppend(Created(session, row, now), a, b);
    FenceGrows(SiteRun(Created(session, row, now), a), b);
  }
}
