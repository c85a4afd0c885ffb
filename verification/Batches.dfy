/** Requests with several updates.  TiDB runs all of them on the snapshot read first, the
    memory store each on what the ones before left
    (internal/backend/tidb/store.go:256-305, internal/backend/memory/memory.go:172-215). */
module Batches {
  import opened Bson
  import opened Collections
  import opened Increments
  import opened Interleaving
  import opened Keys
  import opened Refinement
  import opened Schedules
  import opened SingleRequests
  import opened StoreLaws
  import opened Updates

  function Changes(ops: seq<UpdateModel>): seq<Op> {
    seq(|ops|, i requires 0 <= i < |ops| => Change(ops[i]))
  }

  // ----- independent updates -----

  /** Every row is the original one or what one of the first `n` updates made of it. */
  ghost predicate ChangedByFirst(t0: Coll, ops: seq<UpdateModel>, n: nat, t: Coll) {
    && t.Keys == t0.Keys
    && forall k :: k in t0 && t[k] != t0[k] ==> WrittenByFirst(t0, ops, n, k, t[k])
  }

  ghost predicate WrittenByFirst(t0: Coll, ops: seq<UpdateModel>, n: nat, k: string, doc: Document)
    requires k in t0
  {
    exists j :: 0 <= j < |ops| && j < n && k in OpKeys(t0, Change(ops[j])) && CanBecome(t0[k], ops[j].update, doc)
  }

  lemma FirstAreOthers(t0: Coll, ops: seq<UpdateModel>, n: nat, t: Coll)
    requires ChangedByFirst(t0, ops, n, t) && n < |ops|
    ensures ChangedByOthers(t0, Changes(ops), n, t)
  {
    hide WrittenByFirst, WrittenByOther;
    forall k | k in t0 && RowAt(t, k) != Some(t0[k]) ensures WrittenByOther(t0, Changes(ops), n, k, RowAt(t, k)) {
      WriterIsOther(t0, ops, n, k, t[k]);
    }
  }

  lemma WriterIsOther(t0: Coll, ops: seq<UpdateModel>, n: nat, k: string, doc: Document)
    requires k in t0 && WrittenByFirst(t0, ops, n, k, doc)
    ensures WrittenByOther(t0, Changes(ops), n, k, Some(doc))
  {
    hide OpKeys, CanBecome;
    var all := Changes(ops);
    var j :| 0 <= j < |ops| && j < n && k in OpKeys(t0, Change(ops[j])) && CanBecome(t0[k], ops[j].update, doc);
    assert all[j] == Change(ops[j]) && Effect(all[j], t0[k], Some(doc));
  }

  /** An update sees the same targets in the snapshot and in the table. */
  lemma SnapshotIsCurrent(t0: Coll, ops: seq<UpdateModel>, n: nat, t: Coll)
    requires Independent(t0, Changes(ops)) && Keyed(t0, Changes(ops))
    requires ChangedByFirst(t0, ops, n, t) && n < |ops|
    ensures Targets(Scan(t0), ops[n]) == Targets(Scan(t), ops[n])
    ensures UpdateKeepsKeys(t, ops[n]) && WriteKeys(t, ops[n]) == OpKeys(t0, Change(ops[n]))
    ensures forall k :: k in WriteKeys(t, ops[n]) ==> k in t0 && k in t && t[k] == t0[k]
  {
    var all := Changes(ops);
    FirstAreOthers(t0, ops, n, t);
    SameTargets(t0, all, n, t);
    OpKeysMatch(t0, all[n]);
    assert OpKeyed(t0, all[n]);
    SameKeyed(t0, t, all[n]);
  }

  lemma SameUpdate(t: Coll, snapshot: seq<Document>, other: seq<Document>, op: UpdateModel, next: Coll,
      res: Result<UpdateResult>)
    requires Targets(snapshot, op) == Targets(other, op)
    ensures TidbUpdate(t, snapshot, op, next, res) <==> TidbUpdate(t, other, op, next, res)
  {
  }

  lemma OneMoreWritten(t0: Coll, ops: seq<UpdateModel>, n: nat, t: Coll, mid: Coll, r: UpdateResult)
    requires ChangedByFirst(t0, ops, n, t) && n < |ops| && UpdateKeepsKeys(t, ops[n])
    requires WriteKeys(t, ops[n]) == OpKeys(t0, Change(ops[n])) && (ops[n].upsert ==> WriteKeys(t, ops[n]) != [])
    requires forall k :: k in WriteKeys(t, ops[n]) ==> k in t0 && k in t && t[k] == t0[k]
    requires TidbUpdate(t, Scan(t), ops[n], mid, Ok(r))
    ensures ChangedByFirst(t0, ops, n + 1, mid)
  {
    hide OpKeys, WriteKeys, CanBecome;
    var keys := WriteKeys(t, ops[n]);
    ChangesWritten(t, ops[n], mid, r);
    forall k | k in t0 && mid[k] != t0[k] ensures WrittenByFirst(t0, ops, n + 1, k, mid[k]) {
      if k !in keys {
        assert mid[k] == t[k] && WrittenByFirst(t0, ops, n, k, t[k]);
      }
    }
  }

  lemma ChangesWritten(t: Coll, op: UpdateModel, next: Coll, r: UpdateResult)
    requires UpdateKeepsKeys(t, op) && (op.upsert ==> WriteKeys(t, op) != [])
    requires TidbUpdate(t, Scan(t), op, next, Ok(r))
    ensures Rewrites(t, Elements(WriteKeys(t, op)), op.update, next)
  {
    var keys := WriteKeys(t, op);
    TargetsByKey(t, ScanOrder(t.Keys), op);
    assert |DocsAt(t, keys)| == |keys|;
    if keys != [] {
      ReplacesRewrite(t, keys, op.update, next);
    } else {
      assert next == t;
    }
  }

  /** The first update of a request, and what is left of the request after it. */
  lemma FirstOfBatch(t: Coll, snapshot: seq<Document>, ops: seq<UpdateModel>, next: Coll, res: Result<UpdateResult>)
    returns (mid: Coll, r: Result<UpdateResult>, rest: Result<UpdateResult>)
    requires ops != [] && TidbUpdates(t, snapshot, ops, next, res)
    ensures TidbUpdate(t, snapshot, ops[0], mid, r)
    ensures if r.Err? then next == mid && res == r
            else TidbUpdates(mid, snapshot, ops[1..], next, rest) && res == Chain(r.value, rest)
  {
    hide TidbUpdate;
    mid, r :|
      && TidbUpdate(t, snapshot, ops[0], mid, r)
      && if r.Err? then next == mid && res == r
         else exists rest ::
           && TidbUpdates(mid, snapshot, ops[1..], next, rest)
           && res == Chain(r.value, rest);
    rest := res;
    if r.Ok? {
      rest :| TidbUpdates(mid, snapshot, ops[1..], next, rest) && res == Chain(r.value, rest);
    }
  }

  lemma UpsertFindsSome(t0: Coll, ops: seq<UpdateModel>, n: nat)
    requires Keyed(t0, Changes(ops)) && n < |ops|
    ensures ops[n].upsert ==> OpKeys(t0, Change(ops[n])) != []
  {
    assert OpKeyed(t0, Changes(ops)[n]);
  }

  /** The updates from the `n`th on. */
  lemma {:induction false} RestInMemory(
      t0: Coll, ops: seq<UpdateModel>, n: nat, t: Coll, next: Coll, res: Result<UpdateResult>)
    requires Independent(t0, Changes(ops)) && Keyed(t0, Changes(ops))
    requires n <= |ops| && ChangedByFirst(t0, ops, n, t)
    requires TidbUpdates(t, Scan(t0), ops[n..], next, res)
    ensures MemUpdates(t, ops[n..], next, res)
    decreases |ops| - n
  {
    hide TidbUpdate, MemUpdate, UpdateFails, Targets, Scan, Independent, Keyed, ChangedByFirst, WriteKeys, OpKeys;
    hide UpdateKeepsKeys;
    if n < |ops| {
      var snapshot := Scan(t0);
      assert ops[n..][0] == ops[n] && ops[n..][1..] == ops[n + 1..];
      var mid, r, rest := FirstOfBatch(t, snapshot, ops[n..], next, res);
      SnapshotIsCurrent(t0, ops, n, t);
      SameUpdate(t, snapshot, Scan(t), ops[n], mid, r);
      if r.Err? {
        FailsInMemory(t, ops[n], mid, r);
      } else {
        UpsertFindsSome(t0, ops, n);
        OneMoreWritten(t0, ops, n, t, mid, r.value);
        UpdateRefines(t, ops[n], mid, r.value);
        RestInMemory(t0, ops, n + 1, mid, next, rest);
      }
    }
  }

  /** A request of independent, key-keeping updates on one snapshot is one that the memory
      store can make step by step: same table, same counters, same failure. */
  lemma BatchInMemory(t: Coll, ops: seq<UpdateModel>, next: Coll, res: Result<UpdateResult>)
    requires Independent(t, Changes(ops)) && Keyed(t, Changes(ops))
    requires TidbUpdates(t, Scan(t), ops, next, res)
    ensures MemUpdates(t, ops, next, res)
  {
    assert ops[0..] == ops;
    RestInMemory(t, ops, 0, t, next, res);
  }

  // ----- two increments in one request -----

  ghost predicate BatchRefines(t: Coll, ops: seq<UpdateModel>) {
    forall next, res :: TidbUpdates(t, Scan(t), ops, next, res) ==> MemUpdates(t, ops, next, res)
  }

  /** Increments of the documents as they were in `t0`, written over `t`. */
  lemma {:induction false} BumpOver(t0: Coll, t: Coll, keys: seq<string>, field: string, amount: Value)
    returns (end: Coll)
    requires KeyInvariant(t0) && Distinct(t0, keys) && field != "_id"
    ensures ReplaceEach(t, DocsAt(t0, keys), Bump(field, amount), end, true)
    ensures forall k :: RowAt(end, k) == if k in keys then Some(Bumped(t0[k], field, amount)) else RowAt(t, k)
    decreases |keys|
  {
    hide Bumped, Bump, CanBecome;
    var u := Bump(field, amount);
    if keys == [] {
      end := t;
    } else {
      var k, rest := keys[0], keys[1..];
      var doc := Bumped(t0[k], field, amount);
      FirstOfKeys(t0, keys);
      assert keys == [k] + rest;
      assert DocumentIDKey(t0[k]) == Ok(k);
      BumpOutcome(t0[k], field, amount, doc);
      BumpKeepsKey(t0[k], field, amount);
      end := BumpOver(t0, t[k := doc], rest, field, amount);
      FirstReplaced(t, DocsAt(t0, keys), u, doc, end);
    }
  }

  lemma BumpRuns(t0: Coll, t: Coll, op: UpdateModel, field: string, amount: Value) returns (end: Coll, r: UpdateResult)
    requires KeyInvariant(t0) && IsBump(op, field, amount)
    ensures TidbUpdate(t, Scan(t0), op, end, Ok(r))
    ensures forall k :: if k in WriteKeys(t0, op) then k in t0 && RowAt(end, k) == Some(Bumped(t0[k], field, amount))
                        else RowAt(end, k) == RowAt(t, k)
  {
    hide Bumped, WriteKeys, Targets, Scan, ReplaceEach;
    var keys := WriteKeys(t0, op);
    OpKeysMatch(t0, Change(op));
    end := BumpOver(t0, t, keys, field, amount);
    assert |DocsAt(t0, keys)| == |keys|;
    r := if keys == [] then NOTHING else UpdateResult(|keys|, |keys|, []);
    if keys == [] {
      SameRows(end, t);
    }
  }

  /** Both increments write what they made of the snapshot. */
  lemma BothBump(t: Coll, u: UpdateModel, w: UpdateModel, field: string, a: Value, b: Value)
    returns (end: Coll, res: Result<UpdateResult>)
    requires KeyInvariant(t) && IsBump(u, field, a) && IsBump(w, field, b)
    ensures TidbUpdates(t, Scan(t), [u, w], end, res) && res.Ok?
    ensures forall k :: k in WriteKeys(t, w) ==> k in t && RowAt(end, k) == Some(Bumped(t[k], field, b))
  {
    hide TidbUpdate, WriteKeys, IsBump, Bumped;
    var ops, snapshot := [u, w], Scan(t);
    OpKeysMatch(t, Change(w));
    var mid, r := BumpRuns(t, t, u, field, a);
    var last, q := BumpRuns(t, mid, w, field, b);
    end := last;
    assert TidbUpdates(end, snapshot, [], end, Ok(NOTHING));
    assert ops[1..] == [w] && [w][1..] == [];
    var rest := Chain(q, Ok(NOTHING));
    BatchCons(mid, snapshot, [w], end, q, end, Ok(NOTHING));
    BatchCons(t, snapshot, ops, mid, r, end, rest);
    res := Chain(r, rest);
  }

  lemma BatchCons(
      t: Coll, snapshot: seq<Document>, ops: seq<UpdateModel>, mid: Coll, r: UpdateResult, next: Coll,
      rest: Result<UpdateResult>)
    requires ops != [] && TidbUpdate(t, snapshot, ops[0], mid, Ok(r)) && TidbUpdates(mid, snapshot, ops[1..], next, rest)
    ensures TidbUpdates(t, snapshot, ops, next, Chain(r, rest))
  {
    hide TidbUpdate;
    var x := Ok(r);
    assert TidbUpdate(t, snapshot, ops[0], mid, x) && x.value == r;
  }

  /** The memory store counts both. */
  lemma MemoryBumpsTwice(
      t: Coll, u: UpdateModel, w: UpdateModel, field: string, a: Value, b: Value, end: Coll,
      res: Result<UpdateResult>, k: string)
    requires KeyInvariant(t) && IsBump(u, field, a) && IsBump(w, field, b) && u.multi && w.multi
    requires k in MatchSet(t, u.filter) && k in MatchSet(t, w.filter)
    requires MemUpdates(t, [u, w], end, res) && res.Ok?
    ensures RowAt(end, k) == Some(Bumped(Bumped(t[k], field, a), field, b))
  {
    hide MemUpdate, MemUpdates, IsBump, Bumped, MatchSet;
    var mid, x, y := CountersAddUp(t, u, w, end, res);
    MemoryBump(t, u, field, a, mid, x, k);
    StillMatched(t, w, field, a, b, mid, k);
    MemoryBump(mid, w, field, b, end, y, k);
  }

  lemma MemoryBump(t: Coll, op: UpdateModel, field: string, amount: Value, next: Coll, r: UpdateResult, k: string)
    requires IsBump(op, field, amount) && op.multi && MemUpdate(t, op, next, r) && k in MatchSet(t, op.filter)
    ensures k in next && next[k] == Bumped(t[k], field, amount)
  {
    BumpOutcome(t[k], field, amount, next[k]);
  }

  lemma StillMatched(t: Coll, w: UpdateModel, field: string, a: Value, b: Value, mid: Coll, k: string)
    requires IsBump(w, field, b) && k in MatchSet(t, w.filter)
    requires k in mid && mid[k] == Bumped(t[k], field, a)
    ensures k in MatchSet(mid, w.filter)
  {
    assert mid[k] == With(t[k], field, AddNumbers(Lookup(t[k], field), a));
  }

  /** Two increments of all their matches in one request, of a field that neither filter
      reads, the first not by zero and the field a number where both match: what TiDB does
      is what the memory store does exactly when no document matches both. */
  lemma IncrementBatchExactly(t: Coll, u: UpdateModel, w: UpdateModel, field: string, a: Value, b: Value)
    requires KeyInvariant(t) && IsBump(u, field, a) && IsBump(w, field, b) && u.multi && w.multi && ToFloat(a) != 0.0
    requires forall k :: k in MatchSet(t, u.filter) && k in MatchSet(t, w.filter) ==> IsNumber(Lookup(t[k], field))
    ensures BatchRefines(t, [u, w]) <==> MatchSet(t, u.filter) !! MatchSet(t, w.filter)
  {
    hide IsBump, WriteKeys, Independent, Keyed, Bumped, MemUpdates, TidbUpdates;
    AllAreWritten(t, u);
    AllAreWritten(t, w);
    if MatchSet(t, u.filter) !! MatchSet(t, w.filter) {
      BumpsIndependent(t, u, w, field, a, b);
      assert Changes([u, w]) == Both(u, w);
      forall next, res | TidbUpdates(t, Scan(t), [u, w], next, res) ensures MemUpdates(t, [u, w], next, res) {
        BatchInMemory(t, [u, w], next, res);
      }
    } else {
      var k :| k in MatchSet(t, u.filter) && k in MatchSet(t, w.filter);
      BatchLoses(t, u, w, field, a, b, k);
    }
  }

  lemma AllAreWritten(t: Coll, op: UpdateModel)
    requires op.multi
    ensures Elements(WriteKeys(t, op)) == MatchSet(t, op.filter)
  {
    TargetsByKey(t, ScanOrder(t.Keys), op);
  }

  lemma BatchLoses(t: Coll, u: UpdateModel, w: UpdateModel, field: string, a: Value, b: Value, k: string)
    requires KeyInvariant(t) && IsBump(u, field, a) && IsBump(w, field, b) && u.multi && w.multi && ToFloat(a) != 0.0
    requires k in MatchSet(t, u.filter) && k in MatchSet(t, w.filter) && IsNumber(Lookup(t[k], field))
    ensures !BatchRefines(t, [u, w])
  {
    hide IsBump, WriteKeys, Bumped, MemUpdates, TidbUpdates;
    AllAreWritten(t, w);
    assert k in Elements(WriteKeys(t, w));
    var end, res := BothBump(t, u, w, field, a, b);
    BumpsDiffer(t[k], field, a, b);
    if MemUpdates(t, [u, w], end, res) {
      MemoryBumpsTwice(t, u, w, field, a, b, end, res, k);
    }
  }
}
