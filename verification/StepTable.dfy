/** The table of step rows both stores keep, keyed by step id and holding every saga's journal. */
module StepTable {
  import opened Types
  import opened AbstractStore

  /** What a store keeps for one step id. */
  datatype StepRecord = StepRecord(saga: string, sequence: nat, step: Step)

  predicate Before(a: StepRecord, b: StepRecord, reverse: bool) {
    if reverse then a.sequence > b.sequence else a.sequence < b.sequence
  }

  ghost predicate Ordered(rows: seq<StepRecord>, reverse: bool) {
    forall i, j :: 0 <= i < j < |rows| ==> Before(rows[i], rows[j], reverse)
  }

  /** Sorting by sequence number, one row at a time. */
  function Place(rows: seq<StepRecord>, r: StepRecord, reverse: bool): seq<StepRecord> {
    if rows == [] || Before(r, rows[0], reverse) then [r] + rows else [rows[0]] + Place(rows[1..], r, reverse)
  }

  lemma {:induction false} PlaceKeepsOrder(rows: seq<StepRecord>, r: StepRecord, reverse: bool)
    requires Ordered(rows, reverse) && forall i :: 0 <= i < |rows| ==> rows[i].sequence != r.sequence
    ensures Ordered(Place(rows, r, reverse), reverse)
    ensures forall x :: x in Place(rows, r, reverse) <==> x == r || x in rows
  {
    if rows == [] || Before(r, rows[0], reverse) {
    } else {
      PlaceKeepsOrder(rows[1..], r, reverse);
      var rest := Place(rows[1..], r, reverse);
      forall j | 0 <= j < |rest| ensures Before(rows[0], rest[j], reverse) { assert rest[j] in rest; }
      assert rows == [rows[0]] + rows[1..];
    }
  }

  /** `rows` are the wanted steps of `saga` in sequence order: positions and contents. */
  ghost predicate IsListing(rows: seq<StepRecord>, saga: string, steps: seq<Step>, statuses: Option<set<StepStatus>>,
                            reverse: bool) {
    && (forall i :: 0 <= i < |rows| ==>
          && 1 <= rows[i].sequence <= |steps|
          && rows[i] == StepRecord(saga, rows[i].sequence, steps[rows[i].sequence - 1])
          && Wanted(statuses, rows[i].step))
    && (forall k :: 0 <= k < |steps| && Wanted(statuses, steps[k]) ==> StepRecord(saga, k + 1, steps[k]) in rows)
    && Ordered(rows, reverse)
  }

  function Positions(rows: seq<StepRecord>): (ks: seq<nat>)
    requires forall i :: 0 <= i < |rows| ==> rows[i].sequence >= 1
    ensures |ks| == |rows| && forall i :: 0 <= i < |ks| ==> ks[i] == rows[i].sequence - 1
  {
    seq(|rows|, i requires 0 <= i < |rows| => rows[i].sequence - 1)
  }

  /** Read as journal positions, a listing is the unique exact one. */
  lemma ListingPositions(rows: seq<StepRecord>, saga: string, steps: seq<Step>, statuses: Option<set<StepStatus>>,
                         reverse: bool)
    requires IsListing(rows, saga, steps, statuses, reverse)
    ensures forall i :: 0 <= i < |rows| ==> rows[i].sequence >= 1
    ensures ListsExactly(Positions(rows), steps, statuses, reverse)
  {
    assert forall i :: 0 <= i < |rows| ==> rows[i].sequence >= 1;
    var ks := Positions(rows);
    assert forall i :: 0 <= i < |ks| ==> ks[i] < |steps| && Wanted(statuses, steps[ks[i]]) by {
      PositionsWanted(rows, saga, steps, statuses, reverse);
    }
    assert forall k :: 0 <= k < |steps| && Wanted(statuses, steps[k]) ==> k in ks by {
      forall k | 0 <= k < |steps| && Wanted(statuses, steps[k]) ensures k in ks {
        PositionListed(rows, StepRecord(saga, k + 1, steps[k]));
      }
    }
    PositionsOrdered(rows, reverse);
  }

  lemma PositionsWanted(rows: seq<StepRecord>, saga: string, steps: seq<Step>, statuses: Option<set<StepStatus>>,
                        reverse: bool)
    requires IsListing(rows, saga, steps, statuses, reverse) && forall i :: 0 <= i < |rows| ==> rows[i].sequence >= 1
    ensures var ks := Positions(rows); forall i :: 0 <= i < |ks| ==> ks[i] < |steps| && Wanted(statuses, steps[ks[i]])
  {
    var ks := Positions(rows);
    forall i | 0 <= i < |ks| ensures ks[i] < |steps| && Wanted(statuses, steps[ks[i]]) {
      assert rows[i].step == steps[rows[i].sequence - 1];
    }
  }

  lemma PositionListed(rows: seq<StepRecord>, r: StepRecord)
    requires r in rows && forall i :: 0 <= i < |rows| ==> rows[i].sequence >= 1
    ensures r.sequence - 1 in Positions(rows)
  {
    var i :| 0 <= i < |rows| && rows[i] == r;
    assert Positions(rows)[i] == r.sequence - 1;
  }

  lemma PositionsOrdered(rows: seq<StepRecord>, reverse: bool)
    requires Ordered(rows, reverse) && forall i :: 0 <= i < |rows| ==> rows[i].sequence >= 1
    ensures var ks := Positions(rows);
      forall i, j :: 0 <= i < j < |ks| ==> if reverse then ks[i] > ks[j] else ks[i] < ks[j]
  {
    var ks := Positions(rows);
    forall i, j | 0 <= i < j < |ks| ensures if reverse then ks[i] > ks[j] else ks[i] < ks[j] {
      assert Before(rows[i], rows[j], reverse);
    }
  }

  // ---- the table as the sagas' journals ----

  type Steps = map<string, StepRecord>

  /** The step ids of each saga in creation order. */
  type Order = map<string, seq<string>>

  /** The i-th step created for `s` is row i of its journal and carries sequence number i + 1. */
  ghost predicate Journal(steps: Steps, ids: seq<string>, s: string, journal: seq<Step>) {
    |ids| == |journal| &&
    forall i :: 0 <= i < |ids| ==> ids[i] in steps && steps[ids[i]] == StepRecord(s, i + 1, journal[i])
  }

  ghost predicate JournalOf(steps: Steps, ids: Order, db: Db, s: string) {
    (s in db <==> s in ids) && (s in db ==> Journal(steps, ids[s], s, db[s].row.steps))
  }

  ghost predicate Indexed(steps: Steps, ids: Order, id: string) {
    id in steps ==>
      var r := steps[id];
      r.saga in ids && 1 <= r.sequence <= |ids[r.saga]| && ids[r.saga][r.sequence - 1] == id
  }

  ghost predicate Journals(steps: Steps, ids: Order, db: Db) {
    (forall s :: JournalOf(steps, ids, db, s)) && (forall id :: Indexed(steps, ids, id))
  }

  lemma SliceReplaced(steps: Steps, ids: Order, db: Db, s: string, slice: Slice)
    requires Journals(steps, ids, db) && s in db && slice.row.steps == db[s].row.steps
    ensures Journals(steps, ids, db[s := slice])
  {
    forall x: string {:trigger JournalOf(steps, ids, db[s := slice], x)}
      ensures JournalOf(steps, ids, db[s := slice], x)
    {
      assert JournalOf(steps, ids, db, x);
    }
  }

  lemma SliceCreated(steps: Steps, ids: Order, db: Db, s: string, slice: Slice)
    requires Journals(steps, ids, db) && s !in db && slice.row.steps == []
    ensures Journals(steps, ids[s := []], db[s := slice])
  {
    assert JournalOf(steps, ids, db, s);
    forall x: string {:trigger JournalOf(steps, ids[s := []], db[s := slice], x)}
      ensures JournalOf(steps, ids[s := []], db[s := slice], x)
    {
      assert JournalOf(steps, ids, db, x);
    }
    forall id: string {:trigger Indexed(steps, ids[s := []], id)} ensures Indexed(steps, ids[s := []], id) {
      assert Indexed(steps, ids, id);
    }
  }

  /** A step inserted under a fresh id and the next number goes to the end of its saga's journal. */
  lemma StepInserted(steps: Steps, ids: Order, db: Db, s: string, id: string, step: Step)
    requires Journals(steps, ids, db) && s in db && id !in steps
    ensures s in ids
    ensures Journals(steps[id := StepRecord(s, |db[s].row.steps| + 1, step)], ids[s := ids[s] + [id]],
                     db[s := db[s].(row := Apply(db[s].row, NewStep(step)))])
  {
    assert JournalOf(steps, ids, db, s);
    var u, jds := steps[id := StepRecord(s, |db[s].row.steps| + 1, step)], ids[s := ids[s] + [id]];
    var next := db[s := db[s].(row := Apply(db[s].row, NewStep(step)))];
    forall x ensures JournalOf(u, jds, next, x) {
      assert JournalOf(steps, ids, db, x);
    }
    forall k ensures Indexed(u, jds, k) { assert Indexed(steps, ids, k); }
  }

  /** A replaced step keeps its place. */
  lemma StepReplaced(steps: Steps, ids: Order, db: Db, id: string, status: StepStatus, attempts: Option<nat>)
    requires Journals(steps, ids, db) && id in steps
    ensures var r := steps[id];
      && r.saga in db && 1 <= r.sequence <= |db[r.saga].row.steps|
      && Journals(steps[id := r.(step := Patched(r.step, status, attempts))], ids,
                  db[r.saga := db[r.saga].(row := Apply(db[r.saga].row, SetStep(r.sequence - 1, status, attempts)))])
  {
    var r := steps[id];
    assert Indexed(steps, ids, id) && JournalOf(steps, ids, db, r.saga);
    var u := steps[id := r.(step := Patched(r.step, status, attempts))];
    var next := db[r.saga := db[r.saga].(row := Apply(db[r.saga].row, SetStep(r.sequence - 1, status, attempts)))];
    forall x ensures JournalOf(u, ids, next, x) {
      assert JournalOf(steps, ids, db, x);
    }
    forall k ensures Indexed(u, ids, k) { assert Indexed(steps, ids, k); }
  }

  // ---- scanning the table ----

  predicate AnyExecuting(steps: Steps, saga: string) {
    exists id :: id in steps && steps[id].saga == saga && steps[id].step.status.Executing?
  }

  predicate PendingStatus(status: SagaStatus, executing: bool) {
    status.Failed? || status.RollingBack? || status.RollbackFailed? || (status.Active? && executing)
  }

  lemma PendingMeaning(steps: Steps, ids: Order, db: Db, s: string)
    requires Journals(steps, ids, db) && s in db
    ensures PendingStatus(db[s].row.status, AnyExecuting(steps, s)) <==> IsPending(db[s].row)
  {
    assert JournalOf(steps, ids, db, s);
    var journal := db[s].row.steps;
    if AnyExecuting(steps, s) {
      var id :| id in steps && steps[id].saga == s && steps[id].step.status.Executing?;
      assert Indexed(steps, ids, id);
      assert journal[steps[id].sequence - 1].status.Executing?;
    }
    if k :| 0 <= k < |journal| && journal[k].status.Executing? {
      assert steps[ids[s][k]].step.status.Executing?;
    }
  }

  predicate Matches(r: StepRecord, saga: string, statuses: Option<set<StepStatus>>) {
    r.saga == saga && Wanted(statuses, r.step)
  }

  /** `r` is a matching row already visited. */
  ghost predicate Found(steps: Steps, todo: set<string>, saga: string, statuses: Option<set<StepStatus>>,
                        r: StepRecord) {
    Matches(r, saga, statuses) && exists id :: id in steps && id !in todo && steps[id] == r
  }

  /** The matching rows of the table, in sequence order, are the listing of the saga's journal. */
  lemma ListingComplete(steps: Steps, ids: Order, db: Db, saga: string, statuses: Option<set<StepStatus>>,
                        reverse: bool,
                        rows: seq<StepRecord>)
    requires Journals(steps, ids, db) && Ordered(rows, reverse)
    requires forall r :: r in rows ==> Found(steps, {}, saga, statuses, r)
    requires forall id :: id in steps && Matches(steps[id], saga, statuses) ==> steps[id] in rows
    ensures saga in db ==> IsListing(rows, saga, db[saga].row.steps, statuses, reverse)
    ensures saga !in db ==> rows == []
  {
    assert JournalOf(steps, ids, db, saga);
    assert rows != [] ==> rows[0] in rows;
    forall r | r in rows ensures saga in db && 1 <= r.sequence <= |db[saga].row.steps|
      && r == StepRecord(saga, r.sequence, db[saga].row.steps[r.sequence - 1])
    {
      var id :| id in steps && steps[id] == r;
      assert Indexed(steps, ids, id);
    }
    if saga in db {
      var journal := db[saga].row.steps;
      forall k | 0 <= k < |journal| && Wanted(statuses, journal[k])
        ensures StepRecord(saga, k + 1, journal[k]) in rows
      {
        assert steps[ids[saga][k]] == StepRecord(saga, k + 1, journal[k]);
      }
    }
  }

  /** Rows of one saga never share a sequence number: the next row visited is new to the listing. */
  lemma FreshInListing(steps: Steps, ids: Order, db: Db, todo: set<string>, id: string, saga: string,
                       statuses: Option<set<StepStatus>>, rows: seq<StepRecord>)
    requires Journals(steps, ids, db) && id in steps && Matches(steps[id], saga, statuses)
    requires forall r :: r in rows ==> Found(steps, todo + {id}, saga, statuses, r)
    ensures forall i :: 0 <= i < |rows| ==> rows[i].sequence != steps[id].sequence
  {
    forall i | 0 <= i < |rows| ensures rows[i].sequence != steps[id].sequence {
      assert rows[i] in rows;
      var other :| other in steps && other !in todo + {id} && steps[other] == rows[i];
      assert Indexed(steps, ids, id) && Indexed(steps, ids, other);
    }
  }
}
