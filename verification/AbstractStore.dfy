/** The lease-and-journal machine every saga store implements, one slice per saga. */
module AbstractStore {
  import opened Types

  /** A store mutation of one saga. A step is named by its journal position. */
  datatype Change =
    | SetSaga(status: Option<SagaStatus>, nodes: Option<seq<Node>>)
    | NewStep(step: Step)
    | SetStep(k: nat, stepStatus: StepStatus, attempts: Option<nat>)

  function Patched(step: Step, status: StepStatus, attempts: Option<nat>): Step {
    step.(status := status,
          compensationAttempts := if attempts.Some? then attempts.value else step.compensationAttempts)
  }

  /** The effect of an accepted mutation; updating a step that is not there raises and changes nothing. */
  function Apply(row: Row, c: Change): Row {
    match c
    case SetSaga(status, nodes) =>
      row.(status := if status.Some? then status.value else row.status,
           nodes := if nodes.Some? then nodes.value else row.nodes)
    case NewStep(step) => row.(steps := row.steps + [step])
    case SetStep(k, status, attempts) =>
      if k < |row.steps| then row.(steps := row.steps[k := Patched(row.steps[k], status, attempts)]) else row
  }

  function Replay(row: Row, changes: seq<Change>): Row {
    if changes == [] then row
    else Apply(Replay(row, changes[..|changes| - 1]), changes[|changes| - 1])
  }

  datatype Held = Held(owner: string, until: real)

  /** `fence` counts the leases ever granted; the current holder's token is `fence` itself. */
  datatype Lease = Lease(fence: nat, held: Option<Held>)

  datatype Slice = Slice(session: string, row: Row, lease: Lease)

  predicate Free(lease: Lease, now: real) {
    lease.held.Some? ==> lease.held.value.until <= now
  }

  function Granted(lease: Lease, worker: string, now: real, ttl: real): Lease {
    Lease(lease.fence + 1, Some(Held(worker, now + ttl)))
  }

  predicate MayRenew(lease: Lease, worker: string, token: nat, now: real) {
    && lease.held.Some?
    && lease.held.value.owner == worker
    && lease.fence == token
    && now <= lease.held.value.until
  }

  function Renewed(lease: Lease, worker: string, token: nat, now: real, ttl: real): Lease {
    if MayRenew(lease, worker, token, now) then lease.(held := Some(Held(worker, now + ttl))) else lease
  }

  function Released(lease: Lease, worker: string, token: nat): Lease {
    if lease.held.Some? && lease.held.value.owner == worker && lease.fence == token
    then lease.(held := None) else lease
  }

  type Db = map<string, Slice>

  datatype WriteResult = Accepted | LeaseLost | NotFound | DuplicateId

  predicate FenceOk(lease: Lease, token: Option<nat>) {
    token.Some? ==> token.value == lease.fence
  }

  function AcquireOn(s: Slice, session: string, worker: string, now: real, ttl: real): (Slice, Option<nat>) {
    if s.session == session && Free(s.lease, now)
    then (s.(lease := Granted(s.lease, worker, now, ttl)), Some(s.lease.fence + 1))
    else (s, None)
  }

  /** A fenced (or unfenced, when `token` is None) mutation: a stale token is refused before anything changes. */
  function WriteOn(s: Slice, token: Option<nat>, c: Change): (Slice, WriteResult) {
    if FenceOk(s.lease, token) then (s.(row := Apply(s.row, c)), Accepted) else (s, LeaseLost)
  }

  function Acquire(db: Db, saga: string, session: string, worker: string, now: real, ttl: real): (Db, Option<nat>) {
    if saga in db
    then (db[saga := AcquireOn(db[saga], session, worker, now, ttl).0],
          AcquireOn(db[saga], session, worker, now, ttl).1)
    else (db, None)
  }

  function Renew(db: Db, saga: string, worker: string, token: nat, now: real, ttl: real): (Db, bool) {
    if saga in db
    then (db[saga := db[saga].(lease := Renewed(db[saga].lease, worker, token, now, ttl))],
          MayRenew(db[saga].lease, worker, token, now))
    else (db, false)
  }

  function Release(db: Db, saga: string, worker: string, token: nat): Db {
    if saga in db then db[saga := db[saga].(lease := Released(db[saga].lease, worker, token))] else db
  }

  function Write(db: Db, saga: string, token: Option<nat>, c: Change): (Db, WriteResult) {
    if saga in db then (db[saga := WriteOn(db[saga], token, c).0], WriteOn(db[saga], token, c).1)
    else (db, if token.Some? then LeaseLost else NotFound)
  }

  /** What recovery is for: a saga that is FAILED, ROLLING_BACK or ROLLBACK_FAILED, or ACTIVE with an
      EXECUTING step. */
  ghost predicate AwaitsRecovery(row: Row) {
    || row.status.Failed? || row.status.RollingBack? || row.status.RollbackFailed?
    || (row.status.Active? && exists k :: 0 <= k < |row.steps| && row.steps[k].status.Executing?)
  }

  /** `_is_pending`: what a recovery sweep picks up. */
  predicate IsPending(row: Row) {
    || row.status.Failed? || row.status.RollingBack? || row.status.RollbackFailed?
    || (row.status.Active? && exists k :: 0 <= k < |row.steps| && row.steps[k].status.Executing?)
  }

  /** A lease is granted exactly for the saga's own session when nobody holds an unexpired one. */
  lemma AcquireMeaning(db: Db, saga: string, session: string, worker: string, now: real, ttl: real)
    ensures var (after, token) := Acquire(db, saga, session, worker, now, ttl);
      && (token.Some? <==> saga in db && db[saga].session == session &&
                           (db[saga].lease.held.None? || db[saga].lease.held.value.until <= now))
      && (token.None? ==> after == db)
  {
    Unchanged(db, saga);
  }

  /** The life of a lease, from the grant at `now` on. Until it runs out nobody gets another, then anybody of
      the session does, under the next token. Its holder, and only its holder, may renew it until then, which
      moves its end, and release it, which ends it at once. Writes pass under its token and no other. */
  lemma LeaseLifecycle(db: Db, s: string, session: string, worker: string, now: real, ttl: real, other: string,
                       later: real, more: real, token: nat)
    requires Acquire(db, s, session, worker, now, ttl).1 == Some(token)
    ensures var held := Acquire(db, s, session, worker, now, ttl).0;
      && s in held && token == db[s].lease.fence + 1 && held[s] == db[s].(lease := held[s].lease)
      && Acquire(held, s, session, other, later, more).1 == (if later >= now + ttl then Some(token + 1) else None)
      && Renew(held, s, worker, token, later, more).1 == (later <= now + ttl)
      && (later <= now + ttl ==>
            var renewed := Renew(held, s, worker, token, later, more).0;
            Acquire(renewed, s, session, other, later + more, more).1 == Some(token + 1) &&
            forall x: real :: x < later + more ==> Acquire(renewed, s, session, other, x, more).1.None?)
      && Acquire(Release(held, s, worker, token), s, session, other, later, more).1 == Some(token + 1)
      && (forall t: nat, w: string :: t != token || w != worker ==>
            Renew(held, s, w, t, later, more) == (held, false) && Release(held, s, w, t) == held)
      && (forall t: Option<nat>, c: Change :: Write(held, s, t, c).1.Accepted? <==> t.None? || t == Some(token))
  {
    var held := Acquire(db, s, session, worker, now, ttl).0;
    forall t: nat, w: string | t != token || w != worker
      ensures Renew(held, s, w, t, later, more) == (held, false) && Release(held, s, w, t) == held
    {
      Unchanged(held, s);
    }
  }

  /** What a write leaves: fields given are stored, all others stay, and a stale token changes nothing. */
  lemma WriteReadsBack(db: Db, s: string, token: Option<nat>, c: Change)
    requires s in db
    ensures var (after, result) := Write(db, s, token, c);
      && after.Keys == db.Keys && (forall x :: x in db && x != s ==> after[x] == db[x])
      && after[s].session == db[s].session && after[s].lease == db[s].lease
      && (result.Accepted? || result.LeaseLost?)
      && (result.LeaseLost? <==> token.Some? && token.value != db[s].lease.fence)
      && var row, now := db[s].row, after[s].row;
         if result.LeaseLost? then now == row
         else match c
           case SetSaga(status, nodes) =>
             && now.steps == row.steps
             && (if status.Some? then now.status == status.value else now.status == row.status)
             && (if nodes.Some? then now.nodes == nodes.value else now.nodes == row.nodes)
           case NewStep(step) =>
             && now.status == row.status && now.nodes == row.nodes && |now.steps| == |row.steps| + 1
             && now.steps[|row.steps|] == step && forall k :: 0 <= k < |row.steps| ==> now.steps[k] == row.steps[k]
           case SetStep(k, status, attempts) =>
             && now.status == row.status && now.nodes == row.nodes && |now.steps| == |row.steps|
             && (forall j :: 0 <= j < |row.steps| && j != k ==> now.steps[j] == row.steps[j])
             && (k < |row.steps| ==>
                   && now.steps[k].status == status && now.steps[k].contract == row.steps[k].contract
                   && now.steps[k].compensationAttempts ==
                        (if attempts.Some? then attempts.value else row.steps[k].compensationAttempts))
  {
    Unchanged(db, s);
  }

  predicate Claimable(db: Db, saga: string, now: real) {
    saga in db && IsPending(db[saga].row) && Free(db[saga].lease, now)
  }

  /** A sweep that claims the given sagas one after the other. */
  function Claimed(db: Db, sagas: seq<string>, worker: string, now: real, ttl: real): Db {
    if sagas == [] then db
    else
      var before := Claimed(db, sagas[..|sagas| - 1], worker, now, ttl);
      var saga := sagas[|sagas| - 1];
      if saga in before then Acquire(before, saga, before[saga].session, worker, now, ttl).0 else before
  }

  predicate Distinct<T(==)>(s: seq<T>) {
    forall i, j :: 0 <= i < j < |s| ==> s[i] != s[j]
  }

  /** A sweep over distinct claimable sagas grants each of them once and leaves every other saga alone. */
  lemma {:induction false} ClaimedAt(db: Db, sagas: seq<string>, worker: string, now: real, ttl: real, s: string)
    requires Distinct(sagas) && (forall i :: 0 <= i < |sagas| ==> Claimable(db, sagas[i], now)) && s in db
    ensures var after := Claimed(db, sagas, worker, now, ttl);
      && after.Keys == db.Keys
      && after[s] == if s in sagas then db[s].(lease := Granted(db[s].lease, worker, now, ttl)) else db[s]
  {
    if sagas != [] {
      var init, last := sagas[..|sagas| - 1], sagas[|sagas| - 1];
      ClaimedAt(db, init, worker, now, ttl, s);
      ClaimedAt(db, init, worker, now, ttl, last);
      assert sagas == init + [last];
    }
  }

  /** Any call on any saga, at the time it is made. */
  datatype StoreCall =
    | CallAcquire(saga: string, session: string, worker: string, now: real, ttl: real)
    | CallRenew(saga: string, worker: string, token: nat, now: real, ttl: real)
    | CallRelease(saga: string, worker: string, token: nat, now: real)
    | CallWrite(saga: string, fenced: Option<nat>, change: Change, now: real)

  function Made(db: Db, c: StoreCall): Db {
    match c
    case CallAcquire(saga, session, worker, now, ttl) => Acquire(db, saga, session, worker, now, ttl).0
    case CallRenew(saga, worker, token, now, ttl) => Renew(db, saga, worker, token, now, ttl).0
    case CallRelease(saga, worker, token, _) => Release(db, saga, worker, token)
    case CallWrite(saga, fenced, change, _) => Write(db, saga, fenced, change).0
  }

  function AllMade(db: Db, calls: seq<StoreCall>): Db {
    if calls == [] then db else Made(AllMade(db, calls[..|calls| - 1]), calls[|calls| - 1])
  }

  /** Made after the claim of `saga` under `token` and before it runs out; not the claimant's own release,
      nor a renewal that would shorten the lease. */
  predicate WithinClaim(c: StoreCall, saga: string, worker: string, token: nat, now: real, ttl: real) {
    && now <= c.now < now + ttl
    && (c.CallRelease? ==> !(c.saga == saga && c.worker == worker && c.token == token))
    && (c.CallRenew? ==> c.ttl >= ttl)
  }

  /** `worker` holds the lease under `token` until `until` at least. */
  ghost predicate HeldUntil(db: Db, saga: string, worker: string, token: nat, until: real) {
    && saga in db && db[saga].lease.fence == token && db[saga].lease.held.Some?
    && db[saga].lease.held.value.owner == worker && db[saga].lease.held.value.until >= until
  }

  lemma CallKeepsClaim(db: Db, c: StoreCall, saga: string, worker: string, token: nat, now: real, ttl: real)
    requires HeldUntil(db, saga, worker, token, now + ttl) && WithinClaim(c, saga, worker, token, now, ttl)
    ensures HeldUntil(Made(db, c), saga, worker, token, now + ttl)
  {
  }

  lemma {:induction false} CallsKeepClaim(db: Db, calls: seq<StoreCall>, saga: string, worker: string, token: nat,
                                          now: real, ttl: real)
    requires HeldUntil(db, saga, worker, token, now + ttl)
    requires forall i :: 0 <= i < |calls| ==> WithinClaim(calls[i], saga, worker, token, now, ttl)
    ensures HeldUntil(AllMade(db, calls), saga, worker, token, now + ttl)
  {
    if calls != [] {
      CallsKeepClaim(db, calls[..|calls| - 1], saga, worker, token, now, ttl);
      CallKeepsClaim(AllMade(db, calls[..|calls| - 1]), calls[|calls| - 1], saga, worker, token, now, ttl);
    }
  }

  /** Until it runs out or its holder releases it, no sweep can take a claimed saga, whatever calls anybody
      makes meanwhile. */
  lemma ClaimsExclude(db: Db, sagas: seq<string>, worker: string, now: real, ttl: real, s: string,
                      calls: seq<StoreCall>, later: real)
    requires Distinct(sagas) && (forall i :: 0 <= i < |sagas| ==> Claimable(db, sagas[i], now))
    requires s in db && s in sagas && later < now + ttl
    requires forall i :: 0 <= i < |calls| ==> WithinClaim(calls[i], s, worker, db[s].lease.fence + 1, now, ttl)
    ensures var after := AllMade(Claimed(db, sagas, worker, now, ttl), calls);
      !Claimable(after, s, later) && HeldUntil(after, s, worker, db[s].lease.fence + 1, now + ttl)
  {
    ClaimedAt(db, sagas, worker, now, ttl, s);
    CallsKeepClaim(Claimed(db, sagas, worker, now, ttl), calls, s, worker, db[s].lease.fence + 1, now, ttl);
  }

  datatype Claim = Claim(saga: string, session: string, token: nat)

  function SagasOf(claims: seq<Claim>): (r: seq<string>)
    ensures |r| == |claims| && forall i :: 0 <= i < |r| ==> r[i] == claims[i].saga
  {
    seq(|claims|, i requires 0 <= i < |claims| => claims[i].saga)
  }

  /** Each claim is of a distinct saga that was pending and free, under the next fencing token. */
  ghost predicate FairClaims(db: Db, claims: seq<Claim>, now: real) {
    && Distinct(SagasOf(claims))
    && forall i :: 0 <= i < |claims| ==>
         && Claimable(db, claims[i].saga, now)
         && claims[i].session == db[claims[i].saga].session
         && claims[i].token == db[claims[i].saga].lease.fence + 1
  }

  /** Distinct pending sagas of `db`, in the order a sweep considers them. */
  ghost predicate Candidates(db: Db, candidates: seq<string>) {
    Distinct(candidates) &&
    forall j :: 0 <= j < |candidates| ==> candidates[j] in db && IsPending(db[candidates[j]].row)
  }

  /** The ones among the candidates whose lease is free. */
  function FreeIn(candidates: seq<string>, db: Db, now: real): seq<string> {
    if candidates == [] then []
    else
      var before, last := FreeIn(candidates[..|candidates| - 1], db, now), candidates[|candidates| - 1];
      if last in db && Free(db[last].lease, now) then before + [last] else before
  }

  lemma {:induction false} FreeInMeaning(candidates: seq<string>, db: Db, now: real)
    ensures forall s :: s in FreeIn(candidates, db, now) <==> s in candidates && s in db && Free(db[s].lease, now)
  {
    if candidates != [] {
      FreeInMeaning(candidates[..|candidates| - 1], db, now);
      assert candidates == candidates[..|candidates| - 1] + [candidates[|candidates| - 1]];
    }
  }

  lemma FreeInNext(candidates: seq<string>, i: nat, db: Db, now: real)
    requires i < |candidates| && candidates[i] in db
    ensures FreeIn(candidates[..i + 1], db, now)
         == FreeIn(candidates[..i], db, now) + if Free(db[candidates[i]].lease, now) then [candidates[i]] else []
  {
    assert candidates[..i + 1][..i] == candidates[..i];
  }

  /** After the first `i` candidates, exactly the free ones among them are claimed, in order. */
  ghost predicate SweepState(db: Db, candidates: seq<string>, i: nat, claims: seq<Claim>, now: real) {
    && |claims| <= i <= |candidates| && Candidates(db, candidates) && FairClaims(db, claims, now)
    && SagasOf(claims) == FreeIn(candidates[..i], db, now)
    && forall j :: 0 <= j < |candidates| ==>
         (candidates[j] in SagasOf(claims) <==> j < i && Free(db[candidates[j]].lease, now))
  }

  lemma FairGrows(db: Db, claims: seq<Claim>, s: string, now: real)
    requires FairClaims(db, claims, now) && Claimable(db, s, now) && s !in SagasOf(claims)
    ensures var next := claims + [Claim(s, db[s].session, db[s].lease.fence + 1)];
      SagasOf(next) == SagasOf(claims) + [s] && FairClaims(db, next, now)
  {
    var next := claims + [Claim(s, db[s].session, db[s].lease.fence + 1)];
    assert SagasOf(next) == SagasOf(claims) + [s];
    forall i, j | 0 <= i < j < |next| ensures SagasOf(next)[i] != SagasOf(next)[j] {
      if j == |claims| { assert SagasOf(next)[i] == SagasOf(claims)[i]; }
    }
  }

  /** Claiming one more free saga continues the sequential claim. */
  lemma ClaimOneMore(db: Db, claims: seq<Claim>, s: string, worker: string, now: real, ttl: real)
    requires FairClaims(db, claims, now) && Claimable(db, s, now) && s !in SagasOf(claims)
    ensures var sofar, next := Claimed(db, SagasOf(claims), worker, now, ttl), SagasOf(claims) + [s];
      && s in sofar && sofar[s] == db[s]
      && Acquire(sofar, s, db[s].session, worker, now, ttl)
         == (Claimed(db, next, worker, now, ttl), Some(db[s].lease.fence + 1))
  {
    ClaimedAt(db, SagasOf(claims), worker, now, ttl, s);
    assert (SagasOf(claims) + [s])[..|claims|] == SagasOf(claims);
  }

  lemma SweepGrows(db: Db, candidates: seq<string>, i: nat, claims: seq<Claim>, now: real)
    requires SweepState(db, candidates, i, claims, now) && i < |candidates| && Free(db[candidates[i]].lease, now)
    ensures var s := candidates[i];
      SweepState(db, candidates, i + 1, claims + [Claim(s, db[s].session, db[s].lease.fence + 1)], now)
  {
    var s := candidates[i];
    assert s !in SagasOf(claims);
    FairGrows(db, claims, s, now);
    FreeInNext(candidates, i, db, now);
    forall j | 0 <= j < |candidates|
      ensures candidates[j] in SagasOf(claims) + [s] <==> j < i + 1 && Free(db[candidates[j]].lease, now)
    {
      if j < i { assert candidates[j] != candidates[i]; }
      if j > i { assert candidates[i] != candidates[j]; }
    }
  }

  /** The claims of a loop over the candidates after `i` rounds: a free one is granted, a held one is
      passed over. */
  function ClaimsUpto(db: Db, candidates: seq<string>, i: nat, now: real): seq<Claim>
    requires i <= |candidates|
  {
    if i == 0 then []
    else
      var before, s := ClaimsUpto(db, candidates, i - 1, now), candidates[i - 1];
      if s in db && Free(db[s].lease, now) then before + [Claim(s, db[s].session, db[s].lease.fence + 1)] else before
  }

  /** And the store it leaves. */
  function SweptUpto(db: Db, candidates: seq<string>, i: nat, worker: string, now: real, ttl: real): Db
    requires i <= |candidates|
  {
    Claimed(db, SagasOf(ClaimsUpto(db, candidates, i, now)), worker, now, ttl)
  }

  lemma {:induction false} SweepStateAt(db: Db, candidates: seq<string>, i: nat, now: real)
    requires Candidates(db, candidates) && i <= |candidates|
    ensures SweepState(db, candidates, i, ClaimsUpto(db, candidates, i, now), now)
  {
    if i > 0 {
      SweepStateAt(db, candidates, i - 1, now);
      var before := ClaimsUpto(db, candidates, i - 1, now);
      SweepGoesOn(db, candidates, i - 1, before, ClaimsUpto(db, candidates, i, now), now);
    } else {
      SweepOpens(db, candidates, now);
    }
  }

  lemma SweepGoesOn(db: Db, candidates: seq<string>, i: nat, claims: seq<Claim>, next: seq<Claim>, now: real)
    requires SweepState(db, candidates, i, claims, now) && i < |candidates|
    requires var s := candidates[i];
      next == if s in db && Free(db[s].lease, now)
              then claims + [Claim(s, db[s].session, db[s].lease.fence + 1)] else claims
    ensures SweepState(db, candidates, i + 1, next, now)
  {
    if Free(db[candidates[i]].lease, now) {
      SweepGrows(db, candidates, i, claims, now);
    } else {
      SweepPasses(db, candidates, i, claims, now);
    }
  }

  lemma SweepOpens(db: Db, candidates: seq<string>, now: real)
    requires Candidates(db, candidates)
    ensures SweepState(db, candidates, 0, [], now)
  {
  }

  lemma SweepPasses(db: Db, candidates: seq<string>, i: nat, claims: seq<Claim>, now: real)
    requires SweepState(db, candidates, i, claims, now) && i < |candidates| && !Free(db[candidates[i]].lease, now)
    ensures SweepState(db, candidates, i + 1, claims, now)
  {
    FreeInNext(candidates, i, db, now);
  }

  lemma SweepStarts(db: Db, candidates: seq<string>, worker: string, now: real, ttl: real)
    ensures ClaimsUpto(db, candidates, 0, now) == [] && SweptUpto(db, candidates, 0, worker, now, ttl) == db
  {
  }

  /** One round. */
  lemma SweepRound(db: Db, candidates: seq<string>, i: nat, worker: string, now: real, ttl: real)
    requires Candidates(db, candidates) && i < |candidates|
    ensures var sofar, s := SweptUpto(db, candidates, i, worker, now, ttl), candidates[i];
      && s in db && s in sofar && sofar[s] == db[s]
      && Acquire(sofar, s, db[s].session, worker, now, ttl)
         == (SweptUpto(db, candidates, i + 1, worker, now, ttl),
             if Free(db[s].lease, now) then Some(db[s].lease.fence + 1) else None)
      && ClaimsUpto(db, candidates, i + 1, now)
         == ClaimsUpto(db, candidates, i, now)
            + if Free(db[s].lease, now) then [Claim(s, db[s].session, db[s].lease.fence + 1)] else []
  {
    var claims, s := ClaimsUpto(db, candidates, i, now), candidates[i];
    SweepStateAt(db, candidates, i, now);
    assert s !in SagasOf(claims);
    if Free(db[s].lease, now) {
      FairGrows(db, claims, s, now);
      ClaimOneMore(db, claims, s, worker, now, ttl);
    } else {
      ClaimedAt(db, SagasOf(claims), worker, now, ttl, s);
      Unchanged(SweptUpto(db, candidates, i, worker, now, ttl), s);
    }
  }

  /** A finished sweep has claimed the free candidates, fairly. */
  lemma SweepEnds(db: Db, candidates: seq<string>, now: real)
    requires Candidates(db, candidates)
    ensures var claims := ClaimsUpto(db, candidates, |candidates|, now);
      SagasOf(claims) == FreeIn(candidates, db, now) && FairClaims(db, claims, now) && |claims| <= |candidates|
  {
    SweepStateAt(db, candidates, |candidates|, now);
    assert candidates[..|candidates|] == candidates;
  }

  lemma {:induction false} AllFreeIn(candidates: seq<string>, db: Db, now: real)
    requires forall i :: 0 <= i < |candidates| ==> candidates[i] in db && Free(db[candidates[i]].lease, now)
    ensures FreeIn(candidates, db, now) == candidates
  {
    if candidates != [] { AllFreeIn(candidates[..|candidates| - 1], db, now); }
  }

  // ---- ordered listings ----

  predicate Wanted(statuses: Option<set<StepStatus>>, step: Step) {
    statuses.None? || step.status in statuses.value
  }

  /** `ks` lists exactly the wanted journal positions, ascending or descending. */
  ghost predicate ListsExactly(ks: seq<nat>, steps: seq<Step>, statuses: Option<set<StepStatus>>, reverse: bool) {
    && (forall i :: 0 <= i < |ks| ==> ks[i] < |steps| && Wanted(statuses, steps[ks[i]]))
    && (forall k :: 0 <= k < |steps| && Wanted(statuses, steps[k]) ==> k in ks)
    && (forall i, j :: 0 <= i < j < |ks| ==> if reverse then ks[i] > ks[j] else ks[i] < ks[j])
  }

  /** There is only one such listing. */
  lemma {:induction false} ListingIsUnique(a: seq<nat>, b: seq<nat>, steps: seq<Step>,
                                           statuses: Option<set<StepStatus>>, reverse: bool)
    requires ListsExactly(a, steps, statuses, reverse) && ListsExactly(b, steps, statuses, reverse)
    ensures a == b
  {
    assert forall k :: k in a ==> k in b;
    assert forall k :: k in b ==> k in a;
    SortedIsUnique(a, b, reverse);
  }

  lemma {:induction false} SortedIsUnique(a: seq<nat>, b: seq<nat>, reverse: bool)
    requires forall i, j :: 0 <= i < j < |a| ==> if reverse then a[i] > a[j] else a[i] < a[j]
    requires forall i, j :: 0 <= i < j < |b| ==> if reverse then b[i] > b[j] else b[i] < b[j]
    requires (forall k :: k in a ==> k in b) && (forall k :: k in b ==> k in a)
    ensures a == b
  {
    assert a != [] ==> a[0] in b;
    assert b != [] ==> b[0] in a;
    if a != [] {
      assert a[0] == b[0];
      forall k | k in a[1..] ensures k in b[1..] { assert k in b && k != a[0]; }
      forall k | k in b[1..] ensures k in a[1..] { assert k in a && k != b[0]; }
      SortedIsUnique(a[1..], b[1..], reverse);
    }
  }

  /** Writing back what is there changes nothing. */
  lemma Unchanged(db: Db, s: string)
    ensures s in db ==> db[s := db[s]] == db
  {
  }
}
