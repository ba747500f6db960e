/** `SQLiteSagaStore` (store.py): two tables, one transaction per call, refining the same abstract store. */
module SqliteStore {
  import opened Types
  import opened AbstractStore
  import opened StepTable

  /** A row of the `sagas` table; the lease columns are NULL together. `updatedAt` ranks the time texts. */
  datatype SagaRow = SagaRow(
    session: string,
    status: SagaStatus,
    metadata: seq<Node>,
    nextSequence: nat,
    leaseOwner: Option<string>,
    leaseUntil: Option<real>,
    fence: nat,
    updatedAt: int)

  type SagaTable = map<string, SagaRow>

  function HeldBy(r: SagaRow): Option<Held> {
    if r.leaseOwner.Some? && r.leaseUntil.Some? then Some(Held(r.leaseOwner.value, r.leaseUntil.value)) else None
  }

  ghost predicate Mirrors(r: SagaRow, slice: Slice) {
    && r.session == slice.session && r.status == slice.row.status && r.metadata == slice.row.nodes
    && r.nextSequence == |slice.row.steps| + 1
    && (r.leaseOwner.Some? <==> r.leaseUntil.Some?) && slice.lease == Lease(r.fence, HeldBy(r))
  }

  ghost predicate Represents(t: SagaTable, db: Db) {
    t.Keys == db.Keys && forall s :: s in t ==> Mirrors(t[s], db[s])
  }

  // ---- the claiming query ----

  predicate NotAfter(t: SagaTable, a: string, b: string) { a in t && b in t && t[a].updatedAt <= t[b].updatedAt }

  ghost predicate ByTime(t: SagaTable, xs: seq<string>) {
    (forall x :: x in xs ==> x in t) && forall i, j :: 0 <= i < j < |xs| ==> NotAfter(t, xs[i], xs[j])
  }

  /** ORDER BY updated_at. */
  function InsertByTime(t: SagaTable, xs: seq<string>, s: string): seq<string> {
    if xs == [] || NotAfter(t, s, xs[0]) then [s] + xs else [xs[0]] + InsertByTime(t, xs[1..], s)
  }

  lemma {:induction false} InsertedByTime(t: SagaTable, xs: seq<string>, s: string)
    requires ByTime(t, xs) && Distinct(xs) && s in t && s !in xs
    ensures var r := InsertByTime(t, xs, s);
      ByTime(t, r) && Distinct(r) && forall x :: x in r <==> x == s || x in xs
  {
    if xs != [] && !NotAfter(t, s, xs[0]) {
      var rest := InsertByTime(t, xs[1..], s);
      InsertedByTime(t, xs[1..], s);
      assert xs == [xs[0]] + xs[1..];
      forall j | 0 <= j < |rest| ensures NotAfter(t, xs[0], rest[j]) && rest[j] != xs[0] { assert rest[j] in rest; }
    }
  }

  /** Distinct claimable sagas by time of update; whoever is left out found the limit reached and was
      updated no earlier than anyone taken. */
  ghost predicate OldestFirst(t: SagaTable, db: Db, xs: seq<string>, now: real, limit: nat) {
    && Distinct(xs) && |xs| <= limit && ByTime(t, xs) && (forall s :: s in xs ==> Claimable(db, s, now))
    && forall s :: Claimable(db, s, now) && s !in xs ==>
         |xs| == limit && forall i :: 0 <= i < |xs| ==> NotAfter(t, xs[i], s)
  }

  lemma CutOldestFirst(t: SagaTable, db: Db, xs: seq<string>, now: real, limit: nat)
    requires Distinct(xs) && ByTime(t, xs) && forall s :: s in xs <==> Claimable(db, s, now)
    ensures OldestFirst(t, db, if limit < |xs| then xs[..limit] else xs, now, limit)
  {
    var cut := if limit < |xs| then xs[..limit] else xs;
    assert forall i :: 0 <= i < |cut| ==> xs[i] == cut[i] && cut[i] in cut;
    forall s | Claimable(db, s, now) && s !in cut
      ensures |cut| == limit && forall i :: 0 <= i < |cut| ==> NotAfter(t, cut[i], s)
    {
      var j :| 0 <= j < |xs| && xs[j] == s;
    }
  }

  lemma AllAreClaimable(t: SagaTable, db: Db, xs: seq<string>, now: real, limit: nat)
    requires OldestFirst(t, db, xs, now, limit)
    ensures Candidates(db, xs) && FreeIn(xs, db, now) == xs
    ensures forall i :: 0 <= i < |xs| ==> xs[i] in db && Free(db[xs[i]].lease, now)
  {
    forall i | 0 <= i < |xs| ensures Claimable(db, xs[i], now) { assert xs[i] in xs; }
    AllFreeIn(xs, db, now);
  }

  class SqliteSagaStore {
    var sagas: SagaTable
    var steps: Steps
    /** What the tables stand for. */
    ghost var contents: Db
    ghost var ids: Order

    ghost predicate Valid() reads this { Represents(sagas, contents) && Journals(steps, ids, contents) }

    constructor ()
      ensures Valid() && contents == map[]
    {
      sagas, steps, ids, contents := map[], map[], map[], map[];
    }

    /** A duplicate id violates the primary key: the insert raises and nothing changes. */
    method CreateSaga(id: string, session: string, status: SagaStatus, metadata: seq<Node>, updatedAt: int)
      returns (ok: bool)
      requires Valid()
      modifies this
      ensures Valid() && ok == (id !in old(contents))
      ensures contents ==
        if ok then old(contents)[id := Slice(session, Row(status, metadata, []), Lease(0, None))] else old(contents)
      ensures ok ==> id in sagas && sagas[id].updatedAt == updatedAt
    {
      if id in sagas { return false; }
      SliceCreated(steps, ids, contents, id, Slice(session, Row(status, metadata, []), Lease(0, None)));
      sagas := sagas[id := SagaRow(session, status, metadata, 1, None, None, 0, updatedAt)];
      ids := ids[id := []];
      contents := contents[id := Slice(session, Row(status, metadata, []), Lease(0, None))];
      ok := true;
    }

    /** An unfenced update of a missing row matches nothing and still succeeds. */
    method UpdateSaga(id: string, token: Option<nat>, status: Option<SagaStatus>, metadata: Option<seq<Node>>,
                      updatedAt: Option<int>)
      returns (result: WriteResult)
      requires Valid()
      modifies this
      ensures Valid()
      ensures id in old(contents) || token.Some? ==>
        (contents, result) == Write(old(contents), id, token, SetSaga(status, metadata))
      ensures id !in old(contents) && token.None? ==> contents == old(contents) && result == Accepted
      ensures result.Accepted? && id in old(sagas) ==>
        id in sagas && sagas[id].updatedAt == (if updatedAt.Some? then updatedAt.value else old(sagas)[id].updatedAt)
      ensures forall s :: s in old(sagas) && s != id ==> s in sagas && sagas[s].updatedAt == old(sagas)[s].updatedAt
    {
      Unchanged(contents, id);
      if token.Some? && (id !in sagas || sagas[id].fence != token.value) { return LeaseLost; }
      if id in sagas {
        ghost var slice := WriteOn(contents[id], token, SetSaga(status, metadata)).0;
        SliceReplaced(steps, ids, contents, id, slice);
        var r := sagas[id];
        sagas := sagas[id := r.(status := if status.Some? then status.value else r.status,
                                metadata := if metadata.Some? then metadata.value else r.metadata,
                                updatedAt := if updatedAt.Some? then updatedAt.value else r.updatedAt)];
        contents := contents[id := slice];
      }
      result := Accepted;
    }

    /** The sequence number is taken before the insert; when the insert raises, the rollback gives it back. */
    method CreateStep(saga: string, id: string, step: Step, token: Option<nat>) returns (result: WriteResult)
      requires Valid()
      modifies this
      ensures Valid()
      ensures var w := Write(old(contents), saga, token, NewStep(step));
        if id in old(steps) && w.1.Accepted? then contents == old(contents) && result == DuplicateId
        else (contents, result) == w
      ensures result.Accepted? ==>
        && saga in old(contents)
        && steps == old(steps)[id := StepRecord(saga, |old(contents)[saga].row.steps| + 1, step)]
      ensures !result.Accepted? ==> sagas == old(sagas) && steps == old(steps)
    {
      Unchanged(contents, saga);
      if token.Some? && (saga !in sagas || sagas[saga].fence != token.value) { return LeaseLost; }
      if saga !in sagas { return NotFound; }
      var begin := sagas;
      var sequence := sagas[saga].nextSequence;
      sagas := sagas[saga := sagas[saga].(nextSequence := sagas[saga].nextSequence + 1)];
      if id in steps {
        sagas := begin;
        return DuplicateId;
      }
      StepInserted(steps, ids, contents, saga, id, step);
      steps := steps[id := StepRecord(saga, sequence, step)];
      ids := ids[saga := ids[saga] + [id]];
      contents := contents[saga := WriteOn(contents[saga], token, NewStep(step)).0];
      result := Accepted;
    }

    method UpdateStep(id: string, token: Option<nat>, status: StepStatus, attempts: Option<nat>)
      returns (result: WriteResult)
      requires Valid()
      modifies this
      ensures Valid()
      ensures id !in old(steps) ==> result == NotFound && contents == old(contents)
      ensures id in old(steps) ==> old(steps[id]).sequence >= 1
      ensures id in old(steps) ==>
        (contents, result) == Write(old(contents), old(steps[id]).saga, token,
                                    SetStep(old(steps[id]).sequence - 1, status, attempts))
    {
      if id !in steps { return NotFound; }
      var r := steps[id];
      StepReplaced(steps, ids, contents, id, status, attempts);
      Unchanged(contents, r.saga);
      if token.Some? && (r.saga !in sagas || sagas[r.saga].fence != token.value) { return LeaseLost; }
      steps := steps[id := r.(step := Patched(r.step, status, attempts))];
      contents := contents[r.saga := WriteOn(contents[r.saga], token, SetStep(r.sequence - 1, status, attempts)).0];
      result := Accepted;
    }

    /** The granting UPDATE and the read-back of the new token. */
    method Grant(id: string, worker: string, now: real, ttl: real) returns (token: nat)
      requires Valid() && id in sagas
      modifies this
      ensures id in old(contents) && token == old(contents)[id].lease.fence + 1
      ensures Valid()
      ensures contents ==
        old(contents)[id := old(contents)[id].(lease := Granted(old(contents)[id].lease, worker, now, ttl))]
    {
      ghost var slice := contents[id].(lease := Granted(contents[id].lease, worker, now, ttl));
      SliceReplaced(steps, ids, contents, id, slice);
      sagas := sagas[id := sagas[id].(leaseOwner := Some(worker), leaseUntil := Some(now + ttl),
                                      fence := sagas[id].fence + 1)];
      contents := contents[id := slice];
      token := sagas[id].fence;
    }

    /** What a sweep does to one row it has selected. */
    method GrantPending(id: string, worker: string, now: real, ttl: real) returns (session: string, token: nat)
      requires Valid() && id in contents && Free(contents[id].lease, now)
      modifies this
      ensures Valid() && session == old(contents)[id].session
      ensures (contents, Some(token)) == Acquire(old(contents), id, session, worker, now, ttl)
    {
      session := sagas[id].session;
      token := Grant(id, worker, now, ttl);
    }

    method AcquireSagaLease(id: string, session: string, worker: string, now: real, ttl: real)
      returns (token: Option<nat>)
      requires Valid()
      modifies this
      ensures Valid() && (contents, token) == Acquire(old(contents), id, session, worker, now, ttl)
    {
      Unchanged(contents, id);
      if id in sagas && sagas[id].session == session &&
         (sagas[id].leaseUntil.None? || sagas[id].leaseUntil.value <= now) {
        var next := Grant(id, worker, now, ttl);
        token := Some(next);
      } else {
        token := None;
      }
    }

    method RenewSagaLease(id: string, worker: string, token: nat, now: real, ttl: real) returns (ok: bool)
      requires Valid()
      modifies this
      ensures Valid() && (contents, ok) == Renew(old(contents), id, worker, token, now, ttl)
    {
      Unchanged(contents, id);
      ok := id in sagas && sagas[id].leaseOwner == Some(worker) && sagas[id].fence == token
            && sagas[id].leaseUntil.Some? && sagas[id].leaseUntil.value >= now;
      if ok {
        SliceReplaced(steps, ids, contents, id,
                      contents[id].(lease := Renewed(contents[id].lease, worker, token, now, ttl)));
        sagas := sagas[id := sagas[id].(leaseUntil := Some(now + ttl))];
        contents := contents[id := contents[id].(lease := Renewed(contents[id].lease, worker, token, now, ttl))];
      }
    }

    method ReleaseSagaLease(id: string, worker: string, token: nat)
      requires Valid()
      modifies this
      ensures Valid() && contents == Release(old(contents), id, worker, token)
    {
      Unchanged(contents, id);
      if id in sagas && sagas[id].leaseOwner == Some(worker) && sagas[id].fence == token {
        SliceReplaced(steps, ids, contents, id, contents[id].(lease := Released(contents[id].lease, worker, token)));
        sagas := sagas[id := sagas[id].(leaseOwner := None, leaseUntil := None)];
        contents := contents[id := contents[id].(lease := Released(contents[id].lease, worker, token))];
      }
    }

    /** An empty status filter filters nothing here, unlike in memory. */
    method ListSteps(saga: string, statuses: Option<set<StepStatus>>, reverse: bool) returns (rows: seq<StepRecord>)
      requires Valid()
      ensures saga in contents ==>
        IsListing(rows, saga, contents[saga].row.steps, if statuses == Some({}) then None else statuses, reverse)
      ensures saga !in contents ==> rows == []
    {
      var filter := if statuses.Some? && statuses.value != {} then statuses else None;
      rows := [];
      var todo := steps.Keys;
      while todo != {}
        invariant todo <= steps.Keys && Ordered(rows, reverse)
        invariant forall r :: r in rows ==> Found(steps, todo, saga, filter, r)
        invariant forall id :: id in steps && id !in todo && Matches(steps[id], saga, filter) ==> steps[id] in rows
      {
        var id :| id in todo;
        todo := todo - {id};
        if Matches(steps[id], saga, filter) {
          FreshInListing(steps, ids, contents, todo, id, saga, filter, rows);
          PlaceKeepsOrder(rows, steps[id], reverse);
          rows := Place(rows, steps[id], reverse);
        }
      }
      ListingComplete(steps, ids, contents, saga, filter, reverse, rows);
    }

    /** The claiming query: the pending sagas whose lease is free, the least recently updated ones
        first, at most `limit` of them. */
    method FreePending(now: real, limit: nat) returns (candidates: seq<string>)
      requires Valid()
      ensures OldestFirst(sagas, contents, candidates, now, limit)
      ensures forall s :: s in candidates ==> s in contents && AwaitsRecovery(contents[s].row)
      ensures |candidates| < limit ==>
        forall s :: s in contents && AwaitsRecovery(contents[s].row) ==>
          contents[s].lease.held.None? || contents[s].lease.held.value.until <= now ==> s in candidates
    {
      candidates := [];
      var todo := sagas.Keys;
      while todo != {}
        invariant todo <= contents.Keys && Distinct(candidates) && ByTime(sagas, candidates)
        invariant forall s :: s in candidates <==> s !in todo && Claimable(contents, s, now)
      {
        var s :| s in todo;
        PendingMeaning(steps, ids, contents, s);
        if PendingStatus(sagas[s].status, AnyExecuting(steps, s))
           && (sagas[s].leaseUntil.None? || sagas[s].leaseUntil.value <= now) {
          InsertedByTime(sagas, candidates, s);
          candidates := InsertByTime(sagas, candidates, s);
        }
        todo := todo - {s};
      }
      CutOldestFirst(sagas, contents, candidates, now, limit);
      if limit < |candidates| { candidates := candidates[..limit]; }
    }

    /** Leases are looked at before the limit is applied: a sweep below its limit misses nothing, and a
        full one takes the least recently updated sagas. */
    method ClaimPendingRollbacks(worker: string, now: real, ttl: real, limit: nat) returns (claims: seq<Claim>)
      requires Valid()
      modifies this
      ensures Valid() && contents == Claimed(old(contents), SagasOf(claims), worker, now, ttl)
      ensures forall s :: s in SagasOf(claims) ==> s in old(contents) && AwaitsRecovery(old(contents)[s].row)
      ensures FairClaims(old(contents), claims, now) &&
              OldestFirst(old(sagas), old(contents), SagasOf(claims), now, limit)
    {
      var candidates := FreePending(now, limit);
      ghost var db := contents;
      AllAreClaimable(sagas, db, candidates, now, limit);
      SweepStarts(db, candidates, worker, now, ttl);
      claims := [];
      var i := 0;
      while i < |candidates|
        invariant i <= |candidates| && Valid()
        invariant claims == ClaimsUpto(db, candidates, i, now)
        invariant contents == SweptUpto(db, candidates, i, worker, now, ttl)
      {
        SweepRound(db, candidates, i, worker, now, ttl);
        var session, token := GrantPending(candidates[i], worker, now, ttl);
        claims := claims + [Claim(candidates[i], session, token)];
        i := i + 1;
      }
      SweepEnds(db, candidates, now);
    }
  }
}
