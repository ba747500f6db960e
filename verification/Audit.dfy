/** The per-saga hash-chained audit journal (audit.py), in-memory backend. SHA-256 over the
    canonical JSON envelope is modelled symbolically: a hash is what was hashed. */
module Audit {
  import opened Types

  /** The fields the caller may leave out and the hash still covers, from the actor to the span id. */
  datatype Details = Details(
    actor: Option<string>,
    action: Option<string>,
    stepId: Option<string>,
    nodeId: Option<string>,
    status: Option<string>,
    data: map<string, string>)

  /** An event as a caller passes it; `unknown` holds keys outside the allowed set. */
  datatype AuditEvent = AuditEvent(
    id: Option<string>,
    saga: Option<string>,
    eventType: Option<string>,
    createdAt: Option<string>,
    details: Details,
    unknown: set<string>)

  datatype Body = Body(id: string, saga: string, eventType: string, createdAt: string, details: Details)

  datatype Hash = H(previous: Option<Hash>, body: Body)

  datatype AuditRow = AuditRow(sequence: nat, body: Body, previous: Option<Hash>, hash: Hash)

  predicate Given(s: Option<string>) { s.Some? && s.value != "" }

  /** `_body`: None stands for the ValueError. */
  function BodyOf(e: AuditEvent, uuid: string): Option<Body> {
    if e.unknown != {} || !Given(e.saga) || !Given(e.eventType) || !Given(e.createdAt) then None
    else
      var id := if Given(e.id) then e.id.value else uuid;
      Some(Body(id, e.saga.value, e.eventType.value, e.createdAt.value, e.details))
  }

  // ---- chains ----

  function ChainOf(rows: seq<AuditRow>, saga: string): (chain: seq<AuditRow>)
    ensures forall r :: r in chain <==> r in rows && r.body.saga == saga
  {
    if rows == [] then []
    else
      var rest := ChainOf(rows[..|rows| - 1], saga);
      var last := rows[|rows| - 1];
      assert rows == rows[..|rows| - 1] + [last];
      if last.body.saga == saga then rest + [last] else rest
  }

  function Head(chain: seq<AuditRow>): Option<Hash> {
    if chain == [] then None else Some(chain[|chain| - 1].hash)
  }

  /** Row `i` links to the row before it and carries its own hash. */
  predicate LinksBack(chain: seq<AuditRow>, i: nat)
    requires i < |chain|
  {
    chain[i].previous == Head(chain[..i]) && chain[i].hash == H(chain[i].previous, chain[i].body)
  }

  ghost predicate Chained(chain: seq<AuditRow>) {
    forall i :: 0 <= i < |chain| ==> LinksBack(chain, i)
  }

  function Appended(rows: seq<AuditRow>, body: Body): seq<AuditRow> {
    var previous := Head(ChainOf(rows, body.saga));
    rows + [AuditRow(|rows| + 1, body, previous, H(previous, body))]
  }

  /** The journal after appending `bodies` one after the other, in whatever order the sagas interleave. */
  function AppendAll(bodies: seq<Body>): seq<AuditRow> {
    if bodies == [] then [] else Appended(AppendAll(bodies[..|bodies| - 1]), bodies[|bodies| - 1])
  }

  lemma AppendNext(bodies: seq<Body>, body: Body)
    ensures AppendAll(bodies + [body]) == Appended(AppendAll(bodies), body)
  {
    assert (bodies + [body])[..|bodies|] == bodies;
  }

  function BodiesOf(bodies: seq<Body>, saga: string): seq<Body> {
    if bodies == [] then []
    else
      var rest := BodiesOf(bodies[..|bodies| - 1], saga);
      if bodies[|bodies| - 1].saga == saga then rest + [bodies[|bodies| - 1]] else rest
  }

  function HashOf(bodies: seq<Body>): Option<Hash> {
    if bodies == [] then None else Some(H(HashOf(bodies[..|bodies| - 1]), bodies[|bodies| - 1]))
  }

  lemma ChainGrows(rows: seq<AuditRow>, r: AuditRow, saga: string)
    ensures ChainOf(rows + [r], saga) == ChainOf(rows, saga) + (if r.body.saga == saga then [r] else [])
  {
    assert (rows + [r])[..|rows|] == rows;
  }

  lemma AppendKeepsChains(rows: seq<AuditRow>, body: Body, saga: string)
    requires Chained(ChainOf(rows, saga))
    ensures Chained(ChainOf(Appended(rows, body), saga))
    ensures body.saga != saga ==> ChainOf(Appended(rows, body), saga) == ChainOf(rows, saga)
    ensures body.saga == saga ==>
      var was, now := ChainOf(rows, saga), ChainOf(Appended(rows, body), saga);
      |now| == |was| + 1 && now[..|was|] == was && now[|was|].body == body && Head(now) == Some(H(Head(was), body))
  {
    var r := Appended(rows, body)[|rows|];
    ChainGrows(rows, r, saga);
    var chain, next := ChainOf(rows, saga), ChainOf(Appended(rows, body), saga);
    if body.saga == saga {
      assert next[..|chain|] == chain;
      forall i | 0 <= i < |next| ensures LinksBack(next, i) {
        if i < |chain| { assert LinksBack(chain, i) && next[..i] == chain[..i]; }
      }
    }
  }

  /** After any interleaving of appends every saga's chain verifies, holds exactly the saga's
      events in order, and its head commits to all of them. */
  lemma {:induction false} InterleavedAppendsVerify(bodies: seq<Body>, saga: string)
    ensures var chain := ChainOf(AppendAll(bodies), saga);
      && Chained(chain)
      && |chain| == |BodiesOf(bodies, saga)|
      && (forall i :: 0 <= i < |chain| ==> chain[i].body == BodiesOf(bodies, saga)[i])
      && Head(chain) == HashOf(BodiesOf(bodies, saga))
  {
    if bodies != [] {
      var before, last := bodies[..|bodies| - 1], bodies[|bodies| - 1];
      InterleavedAppendsVerify(before, saga);
      AppendKeepsChains(AppendAll(before), last, saga);
      if last.saga == saga {
        assert BodiesOf(bodies, saga)[..|BodiesOf(before, saga)|] == BodiesOf(before, saga);
      }
    }
  }

  /** Everything in a row except the sequence number, which the hash does not cover. */
  predicate SameRecord(a: AuditRow, b: AuditRow) {
    a.body == b.body && a.previous == b.previous && a.hash == b.hash
  }

  lemma ChainedPrefix(chain: seq<AuditRow>, n: nat)
    requires Chained(chain) && n <= |chain|
    ensures Chained(chain[..n])
  {
    forall i | 0 <= i < n ensures LinksBack(chain[..n], i) {
      assert LinksBack(chain, i) && chain[..n][..i] == chain[..i];
    }
  }

  /** Two verifying chains with the same head are the same history: no edit, insertion, deletion
      or reordering keeps the head. */
  lemma {:induction false} HeadCommits(a: seq<AuditRow>, b: seq<AuditRow>)
    requires Chained(a) && Chained(b) && Head(a) == Head(b)
    ensures |a| == |b| && forall i :: 0 <= i < |a| ==> SameRecord(a[i], b[i])
  {
    if a != [] && b != [] {
      var m, n := |a| - 1, |b| - 1;
      assert LinksBack(a, m) && LinksBack(b, n);
      ChainedPrefix(a, m);
      ChainedPrefix(b, n);
      HeadCommits(a[..m], b[..n]);
      forall i | 0 <= i < |a| ensures SameRecord(a[i], b[i]) {
        if i < m { assert SameRecord(a[..m][i], b[..n][i]); }
      }
    }
  }

  /** Against a remembered head the check is exact: rows pass it if and only if they are the
      original ones, up to their sequence numbers. */
  lemma TamperingDetectedIff(original: seq<AuditRow>, rows: seq<AuditRow>)
    requires Chained(original)
    ensures Chained(rows) && Head(rows) == Head(original) <==>
            |rows| == |original| && forall i :: 0 <= i < |rows| ==> SameRecord(rows[i], original[i])
  {
    if Chained(rows) && Head(rows) == Head(original) {
      HeadCommits(rows, original);
    }
    if |rows| == |original| && forall i :: 0 <= i < |rows| ==> SameRecord(rows[i], original[i]) {
      forall i | 0 <= i < |rows| ensures LinksBack(rows, i) {
        assert LinksBack(original, i);
        assert i > 0 ==> SameRecord(rows[i - 1], original[i - 1]);
      }
    }
  }

  /** Only a remembered head protects the tail: a truncated chain still verifies, always under another head. */
  lemma TruncationVerifies(chain: seq<AuditRow>, n: nat)
    requires Chained(chain) && n < |chain|
    ensures Chained(chain[..n]) && Head(chain[..n]) == chain[n].previous && Head(chain[..n]) != Head(chain)
  {
    ChainedPrefix(chain, n);
    assert LinksBack(chain, n);
    if Head(chain[..n]) == Head(chain) {
      HeadCommits(chain[..n], chain);
      assert false;
    }
  }

  datatype Verification = Intact(checked: nat, head: Option<Hash>) | Broken(checked: nat, failedSequence: nat)

  class StoreAuditJournal {
    var memory: seq<AuditRow>
    var memorySequence: nat
    /** The bodies appended so far. */
    ghost var history: seq<Body>

    ghost predicate Valid() reads this { memory == AppendAll(history) && memorySequence == |memory| }

    constructor ()
      ensures Valid() && history == []
    {
      memory, memorySequence, history := [], 0, [];
    }

    /** The backward scan for the saga's newest row finds the head of its chain. */
    static method LastHash(rows: seq<AuditRow>, saga: string) returns (previous: Option<Hash>)
      ensures previous == Head(ChainOf(rows, saga))
    {
      previous := None;
      var i := |rows|;
      assert rows[..i] == rows;
      while i > 0
        invariant 0 <= i <= |rows| && previous.None?
        invariant Head(ChainOf(rows, saga)) == Head(ChainOf(rows[..i], saga))
      {
        i := i - 1;
        assert rows[..i + 1] == rows[..i] + [rows[i]];
        ChainGrows(rows[..i], rows[i], saga);
        if rows[i].body.saga == saga { return Some(rows[i].hash); }
      }
    }

    /** The result is None when the event is refused, and then nothing changes. */
    method Append(e: AuditEvent, uuid: string) returns (stored: Option<AuditRow>)
      requires Valid()
      modifies this
      ensures Valid()
      ensures stored.None? <==>
        || e.unknown != {} || e.saga.None? || e.saga == Some("") || e.eventType.None? || e.eventType == Some("")
        || e.createdAt.None? || e.createdAt == Some("")
      ensures stored.None? ==> memory == old(memory) && history == old(history)
      ensures stored.Some? ==>
        && history == old(history) + [stored.value.body]
        && memory == old(memory) + [stored.value] && stored.value.sequence == |memory|
        && stored.value.body.id == (if e.id.None? || e.id == Some("") then uuid else e.id.value)
        && Some(stored.value.body.saga) == e.saga && Some(stored.value.body.eventType) == e.eventType
        && Some(stored.value.body.createdAt) == e.createdAt && stored.value.body.details == e.details
        && stored.value.previous == Head(ChainOf(old(memory), stored.value.body.saga))
        && stored.value.hash == H(stored.value.previous, stored.value.body)
    {
      var body := BodyOf(e, uuid);
      if body.None? { return None; }
      var previous := LastHash(memory, body.value.saga);
      AppendNext(history, body.value);
      memorySequence := memorySequence + 1;
      var row := AuditRow(memorySequence, body.value, previous, H(previous, body.value));
      memory := memory + [row];
      history := history + [body.value];
      stored := Some(row);
    }

    /** The verdict on whatever rows the table holds, tampered with or not. */
    static method VerifyRows(rows: seq<AuditRow>) returns (verdict: Verification)
      ensures verdict.Intact? <==> Chained(rows)
      ensures verdict.Intact? ==> verdict == Intact(|rows|, Head(rows))
      ensures verdict.Broken? ==>
        && verdict.checked == |rows|
        && exists i :: 0 <= i < |rows| && Chained(rows[..i]) && !LinksBack(rows, i)
                       && verdict.failedSequence == rows[i].sequence
    {
      var previous: Option<Hash> := None;
      for i := 0 to |rows|
        invariant previous == Head(rows[..i])
        invariant forall k :: 0 <= k < i ==> LinksBack(rows, k)
      {
        var expected := H(previous, rows[i].body);
        if rows[i].previous != previous || rows[i].hash != expected {
          assert !LinksBack(rows, i);
          forall k | 0 <= k < i ensures LinksBack(rows[..i], k) {
            assert LinksBack(rows, k) && rows[..i][..k] == rows[..k];
          }
          return Broken(|rows|, rows[i].sequence);
        }
        previous := Some(rows[i].hash);
        assert LinksBack(rows, i) && rows[..i + 1][i] == rows[i];
      }
      assert rows[..|rows|] == rows;
      verdict := Intact(|rows|, previous);
    }

    /** An untouched journal always verifies, with the exact count and head of the saga's history. */
    method Verify(saga: string) returns (verdict: Verification)
      requires Valid()
      ensures verdict == Intact(|BodiesOf(history, saga)|, HashOf(BodiesOf(history, saga)))
    {
      InterleavedAppendsVerify(history, saga);
      verdict := VerifyRows(ChainOf(memory, saga));
    }
  }
}
