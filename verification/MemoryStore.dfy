/** The in-memory `SagaStore` (store.py), refining the abstract store. */
module MemoryStore {
  import opened Types
  import opened AbstractStore
  import opened StepTable

  /** What `_sagas` holds for one saga. */
  datatype Saga = Saga(session: string, status: SagaStatus, nodes: seq<Node>)

  datatype LeaseRecord = LeaseRecord(owner: string, until: real, token: nat)

  /** The dictionaries keyed by saga id. */
  datatype Tables = Tables(
    sagas: map<string, Saga>,
    nextSequence: map<string, nat>,
    leases: map<string, LeaseRecord>,
    fences: map<string, nat>)

  function AsLease(fence: nat, lease: Option<LeaseRecord>): Lease {
    Lease(fence, if lease.Some? then Some(Held(lease.value.owner, lease.value.until)) else None)
  }

  function LeaseRow(t: Tables, s: string): Option<LeaseRecord> {
    if s in t.leases then Some(t.leases[s]) else None
  }

  /** Every dictionary agrees with the abstract store about saga `s`; a lease carries the newest fence. */
  ghost predicate Mirrors(t: Tables, db: Db, s: string) {
    && (s in t.sagas <==> s in db) && (s in t.nextSequence <==> s in db) && (s in t.fences <==> s in db)
    && (s in t.leases ==> s in db && t.leases[s].token == t.fences[s])
    && (s in db ==>
          && t.sagas[s] == Saga(db[s].session, db[s].row.status, db[s].row.nodes)
          && t.nextSequence[s] == |db[s].row.steps| + 1
          && db[s].lease == AsLease(t.fences[s], LeaseRow(t, s)))
  }

  ghost predicate Represents(t: Tables, db: Db) {
    forall s :: Mirrors(t, db, s)
  }

  /** An update of the dictionaries under one key changes the abstract store in that slice alone. */
  lemma ChangesOnly(t: Tables, u: Tables, db: Db, saga: string, slice: Slice)
    requires Represents(t, db)
    requires u.sagas - {saga} == t.sagas - {saga} && u.nextSequence - {saga} == t.nextSequence - {saga}
    requires u.leases - {saga} == t.leases - {saga} && u.fences - {saga} == t.fences - {saga}
    requires Mirrors(u, db[saga := slice], saga)
    ensures Represents(u, db[saga := slice])
  {
    forall s: string {:trigger Mirrors(u, db[saga := slice], s)} ensures Mirrors(u, db[saga := slice], s) {
      if s != saga {
        assert Mirrors(t, db, s);
        SameElsewhere(t.sagas, u.sagas, saga, s);
        SameElsewhere(t.nextSequence, u.nextSequence, saga, s);
        SameElsewhere(t.leases, u.leases, saga, s);
        SameElsewhere(t.fences, u.fences, saga, s);
      }
    }
  }

  lemma SameElsewhere<V>(m: map<string, V>, n: map<string, V>, k: string, s: string)
    requires m - {k} == n - {k} && s != k
    ensures s in m <==> s in n
    ensures s in m ==> m[s] == n[s]
  {
    assert s in m <==> s in m - {k};
    assert s in n <==> s in n - {k};
    if s in m { assert m[s] == (m - {k})[s] && n[s] == (n - {k})[s]; }
  }

  lemma OnlyThere<V>(m: map<string, V>, k: string, v: V)
    ensures m[k := v] - {k} == m - {k}
  {
  }

  function EmptySlice(saga: Saga): Slice { Slice(saga.session, Row(saga.status, saga.nodes, []), Lease(0, None)) }

  lemma SagaAdded(t: Tables, db: Db, id: string, saga: Saga)
    requires Represents(t, db) && id !in db
    ensures Represents(Tables(t.sagas[id := saga], t.nextSequence[id := 1], t.leases, t.fences[id := 0]),
                       db[id := EmptySlice(saga)])
  {
    assert Mirrors(t, db, id);
    OnlyThere(t.sagas, id, saga);
    OnlyThere(t.nextSequence, id, 1);
    OnlyThere(t.fences, id, 0);
    ChangesOnly(t, Tables(t.sagas[id := saga], t.nextSequence[id := 1], t.leases, t.fences[id := 0]), db, id,
                EmptySlice(saga));
  }

  lemma OrderGrows(order: seq<string>, db: Db, id: string, slice: Slice)
    requires Enumerates(order, db) && id !in db
    ensures Enumerates(order + [id], db[id := slice])
  {
    assert id !in order;
  }

  lemma SameSagas(t: Tables, db: Db)
    requires Represents(t, db)
    ensures t.sagas.Keys == db.Keys
  {
    forall s ensures s in t.sagas <==> s in db { assert Mirrors(t, db, s); }
  }

  // ---- sweeps ----

  /** A dictionary's keys in insertion order. */
  ghost predicate Enumerates(order: seq<string>, db: Db) {
    Distinct(order) && forall s :: s in order <==> s in db
  }

  /** The pending sagas, in that order. */
  function PendingIn(order: seq<string>, db: Db): seq<string> {
    if order == [] then []
    else
      var before, last := PendingIn(order[..|order| - 1], db), order[|order| - 1];
      if last in db && IsPending(db[last].row) then before + [last] else before
  }

  function FirstOf(limit: nat, candidates: seq<string>): seq<string> {
    if limit < |candidates| then candidates[..limit] else candidates
  }

  /** What a sweep takes: the limit cuts the pending sagas before their leases are looked at. */
  function Taken(order: seq<string>, db: Db, limit: nat, now: real): seq<string> {
    FreeIn(FirstOf(limit, PendingIn(order, db)), db, now)
  }

  lemma {:induction false} PendingInMeaning(order: seq<string>, db: Db)
    requires Distinct(order)
    ensures Candidates(db, PendingIn(order, db))
    ensures forall s :: s in PendingIn(order, db) <==> s in order && s in db && IsPending(db[s].row)
  {
    if order != [] {
      PendingInMeaning(order[..|order| - 1], db);
      assert order == order[..|order| - 1] + [order[|order| - 1]];
    }
  }

  /** Whatever a sweep takes awaits recovery. */
  lemma TakenAwait(order: seq<string>, db: Db, limit: nat, now: real)
    requires Distinct(order)
    ensures forall s :: s in Taken(order, db, limit, now) ==> s in db && AwaitsRecovery(db[s].row)
  {
    PendingInMeaning(order, db);
    FreeInMeaning(FirstOf(limit, PendingIn(order, db)), db, now);
  }

  lemma PendingPrefix(order: seq<string>, db: Db, limit: nat)
    requires Distinct(order)
    ensures var first := FirstOf(limit, PendingIn(order, db)); |first| <= limit && Candidates(db, first)
  {
    PendingInMeaning(order, db);
  }

  /** A pending saga beyond the limit is free. */
  predicate FreeBeyond(limit: nat, pending: seq<string>, db: Db, now: real) {
    exists i :: limit <= i < |pending| && pending[i] in db && Free(db[pending[i]].lease, now)
  }

  /** A sweep takes every claimable saga if and only if no pending saga beyond its limit is free. */
  lemma SweepTakesAllIff(order: seq<string>, db: Db, limit: nat, now: real)
    requires Enumerates(order, db)
    ensures (forall s :: Claimable(db, s, now) ==> s in Taken(order, db, limit, now))
            <==> !FreeBeyond(limit, PendingIn(order, db), db, now)
  {
    var pending := PendingIn(order, db);
    var first := FirstOf(limit, pending);
    PendingInMeaning(order, db);
    FreeInMeaning(first, db, now);
    if i :| limit <= i < |pending| && pending[i] in db && Free(db[pending[i]].lease, now) {
      assert pending[i] in pending;
      assert Claimable(db, pending[i], now) && pending[i] !in first;
    }
    if !FreeBeyond(limit, pending, db, now) {
      forall s | Claimable(db, s, now) ensures s in Taken(order, db, limit, now) {
        assert s in order && s in pending;
        var i :| 0 <= i < |pending| && pending[i] == s;
        assert i < limit;
        assert first[i] == s;
      }
    }
  }

  /** A held saga at the limit hides a claimable one behind it: the sweep takes nothing. */
  lemma HeldSagaHidesClaimable(held: string, behind: string, db: Db, now: real)
    requires held in db && behind in db && held != behind
    requires db[held].row.status.Failed? && !Free(db[held].lease, now) && Claimable(db, behind, now)
    ensures Taken([held, behind], db, 1, now) == []
  {
    var order := [held, behind];
    assert order[..1] == [held] && [held][..0] == [];
    assert PendingIn([held], db) == [held];
    assert PendingIn(order, db) == [held, behind];
    assert FirstOf(1, [held, behind]) == [held];
    assert FreeIn([held], db, now) == [];
  }

  class SagaStore {
    var sagas: map<string, Saga>
    /** The insertion order of `sagas`. */
    var order: seq<string>
    var steps: map<string, StepRecord>
    var nextSequence: map<string, nat>
    var leases: map<string, LeaseRecord>
    var fences: map<string, nat>
    /** What the dictionaries stand for. */
    ghost var contents: Db
    ghost var ids: Order

    ghost function Dictionaries(): Tables reads this { Tables(sagas, nextSequence, leases, fences) }

    ghost predicate Valid() reads this {
      Represents(Dictionaries(), contents) && Journals(steps, ids, contents) && Enumerates(order, contents)
    }

    constructor ()
      ensures Valid() && contents == map[]
    {
      order := [];
      sagas, steps, nextSequence, leases, fences := map[], map[], map[], map[], map[];
      ids, contents := map[], map[];
    }

    /** A fresh id extends the store. A duplicate, which the dictionaries accept, restarts the saga's
        sequence numbers and its fence but leaves its steps and its lease behind. */
    method CreateSaga(id: string, saga: Saga)
      requires Valid()
      modifies this`sagas, this`order, this`nextSequence, this`fences, this`ids, this`contents
      ensures sagas == old(sagas)[id := saga] && order == old(order) + if id in old(sagas) then [] else [id]
      ensures nextSequence == old(nextSequence)[id := 1] && fences == old(fences)[id := 0]
      ensures id in old(sagas) <==> id in old(contents)
      ensures id !in old(contents) ==>
        Valid() && contents == old(contents)[id := EmptySlice(saga)]
    {
      assert Mirrors(Dictionaries(), contents, id);
      ghost var t, isNew := Dictionaries(), id !in contents;
      if id !in sagas { order := order + [id]; }
      sagas := sagas[id := saga];
      nextSequence := nextSequence[id := 1];
      fences := fences[id := 0];
      if isNew {
        SliceCreated(steps, ids, contents, id, EmptySlice(saga));
        SagaAdded(t, contents, id, saga);
        OrderGrows(old(order), contents, id, EmptySlice(saga));
        ids := ids[id := []];
        contents := contents[id := EmptySlice(saga)];
      }
    }

    method GetSaga(id: string, session: string) returns (r: Option<Saga>)
      requires Valid()
      ensures r == if id in contents && contents[id].session == session
                   then Some(Saga(session, contents[id].row.status, contents[id].row.nodes)) else None
    {
      assert Mirrors(Dictionaries(), contents, id);
      r := if id in sagas && sagas[id].session == session then Some(sagas[id]) else None;
    }

    method UpdateSaga(id: string, token: Option<nat>, status: Option<SagaStatus>, nodes: Option<seq<Node>>)
      returns (result: WriteResult)
      requires Valid()
      modifies this`sagas, this`contents
      ensures Valid() && (contents, result) == Write(old(contents), id, token, SetSaga(status, nodes))
    {
      ghost var t := Dictionaries();
      assert Mirrors(t, contents, id);
      Unchanged(contents, id);
      if token.Some? && (id !in fences || fences[id] != token.value) { return LeaseLost; }
      if id !in sagas { return NotFound; }
      ghost var slice := WriteOn(contents[id], token, SetSaga(status, nodes)).0;
      SliceReplaced(steps, ids, contents, id, slice);
      sagas := sagas[id := Saga(sagas[id].session,
                                if status.Some? then status.value else sagas[id].status,
                                if nodes.Some? then nodes.value else sagas[id].nodes)];
      ChangesOnly(t, Dictionaries(), contents, id, slice);
      contents := contents[id := slice];
      result := Accepted;
    }

    /** A duplicate step id silently replaces the older step, in whatever saga that was. */
    method CreateStep(saga: string, id: string, step: Step, token: Option<nat>) returns (result: WriteResult)
      requires Valid()
      modifies this`nextSequence, this`steps, this`ids, this`contents
      ensures result == Write(old(contents), saga, token, NewStep(step)).1
      ensures id !in old(steps) || !result.Accepted? ==>
        Valid() && contents == Write(old(contents), saga, token, NewStep(step)).0
      ensures result.Accepted? ==>
        && saga in old(contents)
        && steps == old(steps)[id := StepRecord(saga, |old(contents)[saga].row.steps| + 1, step)]
        && nextSequence == old(nextSequence)[saga := |old(contents)[saga].row.steps| + 2]
      ensures !result.Accepted? ==> steps == old(steps) && nextSequence == old(nextSequence)
    {
      ghost var t, slices := Dictionaries(), steps;
      assert Mirrors(t, contents, saga);
      Unchanged(contents, saga);
      if token.Some? && (saga !in fences || fences[saga] != token.value) { return LeaseLost; }
      if saga !in nextSequence { return NotFound; }
      var sequence := nextSequence[saga];
      nextSequence := nextSequence[saga := sequence + 1];
      steps := steps[id := StepRecord(saga, sequence, step)];
      if id !in slices {
        StepInserted(slices, ids, contents, saga, id, step);
        ids := ids[saga := ids[saga] + [id]];
        ChangesOnly(t, Dictionaries(), contents, saga, WriteOn(contents[saga], token, NewStep(step)).0);
        contents := contents[saga := WriteOn(contents[saga], token, NewStep(step)).0];
      }
      result := Accepted;
    }

    method UpdateStep(id: string, token: Option<nat>, status: StepStatus, attempts: Option<nat>)
      returns (result: WriteResult)
      requires Valid()
      modifies this`steps, this`contents
      ensures Valid()
      ensures id !in old(steps) ==> result == NotFound && contents == old(contents)
      ensures id in old(steps) ==> old(steps[id]).sequence >= 1
      ensures id in old(steps) ==>
        (contents, result) == Write(old(contents), old(steps[id]).saga, token,
                                    SetStep(old(steps[id]).sequence - 1, status, attempts))
    {
      if id !in steps { return NotFound; }
      ghost var t := Dictionaries();
      var r := steps[id];
      StepReplaced(steps, ids, contents, id, status, attempts);
      assert Mirrors(t, contents, r.saga);
      Unchanged(contents, r.saga);
      if token.Some? && (r.saga !in fences || fences[r.saga] != token.value) { return LeaseLost; }
      steps := steps[id := r.(step := Patched(r.step, status, attempts))];
      ghost var slice := WriteOn(contents[r.saga], token, SetStep(r.sequence - 1, status, attempts)).0;
      ChangesOnly(t, Dictionaries(), contents, r.saga, slice);
      contents := contents[r.saga := slice];
      result := Accepted;
    }

    method AcquireSagaLease(id: string, session: string, worker: string, now: real, ttl: real)
      returns (token: Option<nat>)
      requires Valid()
      modifies this`fences, this`leases, this`contents
      ensures Valid() && (contents, token) == Acquire(old(contents), id, session, worker, now, ttl)
    {
      ghost var t := Dictionaries();
      assert Mirrors(t, contents, id);
      Unchanged(contents, id);
      if id !in sagas || sagas[id].session != session { return None; }
      if id in leases && leases[id].until > now { return None; }
      ghost var slice := contents[id].(lease := Granted(contents[id].lease, worker, now, ttl));
      SliceReplaced(steps, ids, contents, id, slice);
      var next := fences[id] + 1;
      fences := fences[id := next];
      leases := leases[id := LeaseRecord(worker, now + ttl, next)];
      ChangesOnly(t, Dictionaries(), contents, id, slice);
      contents := contents[id := slice];
      token := Some(next);
    }

    method RenewSagaLease(id: string, worker: string, token: nat, now: real, ttl: real) returns (ok: bool)
      requires Valid()
      modifies this`leases, this`contents
      ensures Valid() && (contents, ok) == Renew(old(contents), id, worker, token, now, ttl)
    {
      ghost var t := Dictionaries();
      assert Mirrors(t, contents, id);
      Unchanged(contents, id);
      if id !in leases || leases[id].owner != worker || leases[id].token != token || leases[id].until < now {
        return false;
      }
      ghost var slice := contents[id].(lease := Renewed(contents[id].lease, worker, token, now, ttl));
      SliceReplaced(steps, ids, contents, id, slice);
      leases := leases[id := LeaseRecord(worker, now + ttl, token)];
      ChangesOnly(t, Dictionaries(), contents, id, slice);
      contents := contents[id := slice];
      ok := true;
    }

    method ReleaseSagaLease(id: string, worker: string, token: nat)
      requires Valid()
      modifies this`leases, this`contents
      ensures Valid() && contents == Release(old(contents), id, worker, token)
    {
      ghost var t := Dictionaries();
      assert Mirrors(t, contents, id);
      Unchanged(contents, id);
      if id in leases && leases[id].owner == worker && leases[id].token == token {
        ghost var slice := contents[id].(lease := Released(contents[id].lease, worker, token));
        SliceReplaced(steps, ids, contents, id, slice);
        leases := leases - {id};
        ChangesOnly(t, Dictionaries(), contents, id, slice);
        contents := contents[id := slice];
      }
    }

    method ListSteps(saga: string, statuses: Option<set<StepStatus>>, reverse: bool) returns (rows: seq<StepRecord>)
      requires Valid()
      ensures saga in contents ==> IsListing(rows, saga, contents[saga].row.steps, statuses, reverse)
      ensures forall r :: r in rows ==> statuses.None? || r.step.status in statuses.value
      ensures saga in contents ==>
        forall k :: 0 <= k < |contents[saga].row.steps| ==>
          statuses.None? || contents[saga].row.steps[k].status in statuses.value ==>
            StepRecord(saga, k + 1, contents[saga].row.steps[k]) in rows
      ensures saga !in contents ==> rows == []
    {
      rows := [];
      var todo := steps.Keys;
      while todo != {}
        invariant todo <= steps.Keys && Ordered(rows, reverse)
        invariant forall r :: r in rows ==> Found(steps, todo, saga, statuses, r)
        invariant forall id :: id in steps && id !in todo && Matches(steps[id], saga, statuses) ==> steps[id] in rows
      {
        var id :| id in todo;
        todo := todo - {id};
        if Matches(steps[id], saga, statuses) {
          FreshInListing(steps, ids, contents, todo, id, saga, statuses, rows);
          PlaceKeepsOrder(rows, steps[id], reverse);
          rows := Place(rows, steps[id], reverse);
        }
      }
      ListingComplete(steps, ids, contents, saga, statuses, reverse, rows);
    }

    /** In insertion order. */
    method PendingRollbacks() returns (result: seq<string>)
      requires Valid()
      ensures result == PendingIn(order, contents) && Distinct(result)
      ensures forall s :: s in result <==> s in contents && AwaitsRecovery(contents[s].row)
    {
      SameSagas(Dictionaries(), contents);
      result := [];
      for i := 0 to |order|
        invariant result == PendingIn(order[..i], contents)
      {
        var s := order[i];
        assert s in order && Mirrors(Dictionaries(), contents, s);
        assert order[..i + 1][..i] == order[..i];
        PendingMeaning(steps, ids, contents, s);
        if PendingStatus(sagas[s].status, AnyExecuting(steps, s)) { result := result + [s]; }
      }
      assert order[..|order|] == order;
      PendingInMeaning(order, contents);
    }

    /** `acquire_saga_lease` with the session the saga is stored under. */
    method AcquireForOwner(id: string, worker: string, now: real, ttl: real)
      returns (session: string, token: Option<nat>)
      requires Valid() && id in contents
      modifies this`fences, this`leases, this`contents
      ensures Valid() && session == old(contents)[id].session
      ensures (contents, token) == Acquire(old(contents), id, old(contents)[id].session, worker, now, ttl)
    {
      assert Mirrors(Dictionaries(), contents, id);
      session := sagas[id].session;
      token := AcquireSagaLease(id, session, worker, now, ttl);
    }

    /** The limit cuts the candidates before their leases are looked at. */
    method ClaimPendingRollbacks(worker: string, now: real, ttl: real, limit: nat) returns (claims: seq<Claim>)
      requires Valid()
      modifies this`fences, this`leases, this`contents
      ensures Valid() && contents == Claimed(old(contents), SagasOf(claims), worker, now, ttl)
      ensures FairClaims(old(contents), claims, now) && |claims| <= limit
      ensures SagasOf(claims) == Taken(order, old(contents), limit, now)
    {
      var pending := PendingRollbacks();
      var candidates := FirstOf(limit, pending);
      ghost var db := contents;
      PendingPrefix(order, db, limit);
      SweepStarts(db, candidates, worker, now, ttl);
      claims := [];
      var i := 0;
      while i < |candidates|
        invariant i <= |candidates| && Valid()
        invariant claims == ClaimsUpto(db, candidates, i, now)
        invariant contents == SweptUpto(db, candidates, i, worker, now, ttl)
      {
        SweepRound(db, candidates, i, worker, now, ttl);
        var session, token := AcquireForOwner(candidates[i], worker, now, ttl);
        if token.Some? { claims := claims + [Claim(candidates[i], session, token.value)]; }
        i := i + 1;
      }
      SweepEnds(db, candidates, now);
    }
  }
}
