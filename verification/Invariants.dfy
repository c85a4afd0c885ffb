/** The key invariant of both stores, over every run, and whole-run refinement. */
module Invariants {
  import opened Bson
  import opened Collections
  import opened Keys
  import opened Refinement
  import opened Updates

  // ----- the TiDB store keeps the invariant whatever it is asked to do -----

  lemma {:induction false} InsertKeeps(c: Coll, docs: seq<Document>, validator: Document)
    requires KeyInvariant(c)
    ensures KeyInvariant(InsertInto(c, docs, validator).coll)
    decreases |docs|
  {
    if docs != [] {
      var key := DocumentIDKey(docs[0]);
      if key.Ok? && key.value !in c {
        InvariantKept(c, key.value, docs[0]);
        InsertKeeps(c[key.value := docs[0]], docs[1..], validator);
      }
    }
  }

  /** REPLACE files each new document under its own key, also when `_id` changes and
      when the request fails half-way. */
  lemma {:induction false} ReplacesKeep(t: Coll, targets: seq<Document>, u: Document, next: Coll, ok: bool)
    requires KeyInvariant(t) && ReplaceEach(t, targets, u, next, ok)
    ensures KeyInvariant(next)
    decreases |targets|
  {
    if targets != [] && Succeeds(u) {
      var doc :|
        && CanBecome(targets[0], u, doc)
        && if DocumentIDKey(doc).Err? then next == t && !ok
           else ReplaceEach(t[DocumentIDKey(doc).value := doc], targets[1..], u, next, ok);
      if DocumentIDKey(doc).Ok? {
        InvariantKept(t, DocumentIDKey(doc).value, doc);
        ReplacesKeep(t[DocumentIDKey(doc).value := doc], targets[1..], u, next, ok);
      }
    }
  }

  lemma UpsertKeeps(c: Coll, op: UpdateModel, next: Coll, r: UpdateResult)
    requires KeyInvariant(c) && Upserts(c, op, next, r)
    ensures KeyInvariant(next)
  {
    var doc :| CanUpsert(op, doc) && DocumentIDKey(doc).Ok? && next == c[DocumentIDKey(doc).value := doc];
    InvariantKept(c, DocumentIDKey(doc).value, doc);
  }

  lemma TidbUpdateKeeps(t: Coll, snapshot: seq<Document>, op: UpdateModel, next: Coll, res: Result<UpdateResult>)
    requires KeyInvariant(t) && TidbUpdate(t, snapshot, op, next, res)
    ensures KeyInvariant(next)
  {
    var targets := Targets(snapshot, op);
    if targets != [] {
      ReplacesKeep(t, targets, op.update, next, res.Ok?);
    } else if op.upsert && res.Ok? {
      UpsertKeeps(t, op, next, res.value);
    }
  }

  lemma {:induction false} TidbUpdatesKeep(
      t: Coll, snapshot: seq<Document>, ops: seq<UpdateModel>, next: Coll, res: Result<UpdateResult>)
    requires KeyInvariant(t) && TidbUpdates(t, snapshot, ops, next, res)
    ensures KeyInvariant(next)
    decreases |ops|
  {
    if ops != [] {
      var mid, r :|
        && TidbUpdate(t, snapshot, ops[0], mid, r)
        && if r.Err? then next == mid && res == r
           else exists rest ::
             && TidbUpdates(mid, snapshot, ops[1..], next, rest)
             && res == Chain(r.value, rest);
      TidbUpdateKeeps(t, snapshot, ops[0], mid, r);
      if r.Ok? {
        var rest :| TidbUpdates(mid, snapshot, ops[1..], next, rest);
        TidbUpdatesKeep(mid, snapshot, ops[1..], next, rest);
      }
    }
  }

  lemma {:induction false} DeleteEachKeeps(t: Coll, docs: seq<Document>)
    requires KeyInvariant(t)
    ensures KeyInvariant(DeleteEach(t, docs).coll)
    decreases |docs|
  {
    if docs != [] && DocumentIDKey(docs[0]).Ok? {
      DeleteEachKeeps(t - {DocumentIDKey(docs[0]).value}, docs[1..]);
    }
  }

  lemma {:induction false} TidbDeletesKeep(t: Coll, snapshot: seq<Document>, ops: seq<DeleteModel>)
    requires KeyInvariant(t)
    ensures KeyInvariant(TidbDeletes(t, snapshot, ops).coll)
    decreases |ops|
  {
    if ops != [] {
      var victims := Victims(snapshot, ops[0]);
      var first := DeleteEach(t, victims);
      DeleteEachKeeps(t, victims);
      if first.ok {
        TidbDeletesKeep(first.coll, snapshot, ops[1..]);
      }
    }
  }

  /** Every request that changes a TiDB table, successful or not. */
  datatype Request =
    | Insert(docs: seq<Document>)
    | Update(updates: seq<UpdateModel>)
    | Delete(deletes: seq<DeleteModel>)

  ghost predicate TidbRequest(t: Coll, req: Request, next: Coll, validator: Document) {
    match req
    case Insert(docs) => next == TidbInsert(t, docs, validator).coll
    case Update(ops) => exists res :: TidbUpdates(t, Scan(t), ops, next, res)
    case Delete(ops) => next == TidbDeletes(t, Scan(t), ops).coll
  }

  ghost predicate MemRequest(c: Coll, req: Request, next: Coll, validator: Document) {
    match req
    case Insert(docs) => next == InsertInto(c, docs, validator).coll
    case Update(ops) => exists res :: MemUpdates(c, ops, next, res)
    case Delete(ops) => exists n: nat :: MemDeletes(c, ops, next, n)
  }

  /** In TiDB every row is filed under the key of its document, in every state of every
      run, whatever the requests and whether they succeed or fail. */
  lemma {:induction false} TidbInvariant(states: seq<Coll>, reqs: seq<Request>, validator: Document, i: nat)
    requires |states| == |reqs| + 1 && states[0] == map[]
    requires forall j :: 0 <= j < |reqs| ==> TidbRequest(states[j], reqs[j], states[j + 1], validator)
    requires i < |states|
    ensures KeyInvariant(states[i])
  {
    hide TidbRequest;
    if i > 0 {
      TidbInvariant(states, reqs, validator, i - 1);
      var j := i - 1;
      assert TidbRequest(states[j], reqs[j], states[j + 1], validator);
      TidbRequestKeeps(states[j], reqs[j], states[i], validator);
    }
  }

  lemma TidbRequestKeeps(t: Coll, req: Request, next: Coll, validator: Document)
    requires KeyInvariant(t) && TidbRequest(t, req, next, validator)
    ensures KeyInvariant(next)
  {
    match req
    case Insert(docs) =>
      InsertKeeps(t, docs, validator);
    case Update(ops) =>
      var res :| TidbUpdates(t, Scan(t), ops, next, res);
      TidbUpdatesKeep(t, Scan(t), ops, next, res);
    case Delete(ops) =>
      TidbDeletesKeep(t, Scan(t), ops);
  }

  // ----- the memory store keeps it for updates that keep keys -----

  lemma RewriteKeeps(c: Coll, all: set<string>, keys: set<string>, u: Document, next: Coll)
    requires KeyInvariant(c) && KeepsKeys(c, all, u) && keys <= all && Rewrites(c, keys, u, next)
    ensures KeyInvariant(next)
  {
    forall k | k in next ensures DocumentIDKey(next[k]) == Ok(k) {
      assert DocumentIDKey(c[k]) == Ok(k);
      assert if k in keys then CanBecome(c[k], u, next[k]) else next[k] == c[k];
    }
  }

  /** Inserting upserts need no condition: they file the new document under its own key. */
  lemma MemUpdateKeeps(c: Coll, op: UpdateModel, next: Coll, r: UpdateResult)
    requires KeyInvariant(c) && KeepsKeys(c, MatchSet(c, op.filter), op.update) && MemUpdate(c, op, next, r)
    ensures KeyInvariant(next)
  {
    hide Rewrites, KeepsKeys, KeyInvariant;
    var matched := MatchSet(c, op.filter);
    if matched != {} {
      if op.multi {
        RewriteKeeps(c, matched, matched, op.update, next);
      } else {
        var k :| k in matched && Rewrites(c, {k}, op.update, next);
        RewriteKeeps(c, matched, {k}, op.update, next);
      }
    } else if op.upsert {
      UpsertKeeps(c, op, next, r);
    }
  }

  /** Each update of a request keeps the keys of its matches, wherever the ones before
      it lead. */
  ghost predicate UpdatesKeepKeys(c: Coll, ops: seq<UpdateModel>)
    decreases |ops|
  {
    ops != [] ==>
      && KeepsKeys(c, MatchSet(c, ops[0].filter), ops[0].update)
      && forall mid, r :: MemUpdate(c, ops[0], mid, r) ==> UpdatesKeepKeys(mid, ops[1..])
  }

  /** Updates that never name `_id` keep all keys. */
  lemma {:induction false} IdSafeUpdatesKeepKeys(c: Coll, ops: seq<UpdateModel>)
    requires KeyInvariant(c) && forall i :: 0 <= i < |ops| ==> IdSafe(ops[i].update)
    ensures UpdatesKeepKeys(c, ops)
    decreases |ops|
  {
    if ops != [] {
      IdSafeKeepsKeys(c, MatchSet(c, ops[0].filter), ops[0].update);
      forall mid, r | MemUpdate(c, ops[0], mid, r) ensures UpdatesKeepKeys(mid, ops[1..]) {
        MemUpdateKeeps(c, ops[0], mid, r);
        IdSafeUpdatesKeepKeys(mid, ops[1..]);
      }
    }
  }

  lemma IdSafeKeepsKeys(c: Coll, keys: set<string>, u: Document)
    requires KeyInvariant(c) && IdSafe(u)
    ensures KeepsKeys(c, keys, u)
  {
    forall k, doc | k in keys && k in c && CanBecome(c[k], u, doc) ensures DocumentIDKey(doc) == Ok(k) {
      assert DocumentIDKey(c[k]) == Ok(k);
      KeyKept(c[k], u, doc);
    }
  }

  /** A request with no update left, or one whose first update fails, changes nothing. */
  lemma FirstUpdate(c: Coll, ops: seq<UpdateModel>, next: Coll, res: Result<UpdateResult>)
    returns (mid: Coll, r: UpdateResult, rest: Result<UpdateResult>)
    requires MemUpdates(c, ops, next, res) && ops != [] && next != c
    ensures MemUpdate(c, ops[0], mid, r) && MemUpdates(mid, ops[1..], next, rest)
  {
    if UpdateFails(c, ops[0], next) {
      FailureWritesNothing(c, ops[0], next);
    }
    mid, r, rest :|
      && MemUpdate(c, ops[0], mid, r)
      && MemUpdates(mid, ops[1..], next, rest)
      && res == Chain(r, rest);
  }

  lemma {:induction false} MemUpdatesKeep(c: Coll, ops: seq<UpdateModel>, next: Coll, res: Result<UpdateResult>)
    requires KeyInvariant(c) && UpdatesKeepKeys(c, ops) && MemUpdates(c, ops, next, res)
    ensures KeyInvariant(next)
    decreases |ops|
  {
    hide MemUpdate;
    if ops != [] && next != c {
      var mid, r, rest := FirstUpdate(c, ops, next, res);
      MemUpdateKeeps(c, ops[0], mid, r);
      MemUpdatesKeep(mid, ops[1..], next, rest);
    }
  }

  lemma {:induction false} MemDeletesKeep(c: Coll, ops: seq<DeleteModel>, next: Coll, n: nat)
    requires KeyInvariant(c) && MemDeletes(c, ops, next, n)
    ensures KeyInvariant(next)
    decreases |ops|
  {
    if ops != [] {
      var mid, m: nat, rest: nat :| MemDelete(c, ops[0], mid, m) && MemDeletes(mid, ops[1..], next, rest) && n == m + rest;
      MemDeletesKeep(mid, ops[1..], next, rest);
    }
  }

  ghost predicate RequestKeepsKeys(c: Coll, req: Request) {
    req.Update? ==> UpdatesKeepKeys(c, req.updates)
  }

  lemma MemRequestKeeps(c: Coll, req: Request, next: Coll, validator: Document)
    requires KeyInvariant(c) && RequestKeepsKeys(c, req) && MemRequest(c, req, next, validator)
    ensures KeyInvariant(next)
  {
    match req
    case Insert(docs) =>
      InsertKeeps(c, docs, validator);
    case Update(ops) =>
      var res :| MemUpdates(c, ops, next, res);
      MemUpdatesKeep(c, ops, next, res);
    case Delete(ops) =>
      var n: nat :| MemDeletes(c, ops, next, n);
      MemDeletesKeep(c, ops, next, n);
  }

  /** In memory the same holds in every state reached by updates that keep the keys of
      the documents they match; so there too no `_id` occurs twice. */
  lemma {:induction false} MemInvariant(states: seq<Coll>, reqs: seq<Request>, validator: Document, i: nat)
    requires |states| == |reqs| + 1 && states[0] == map[]
    requires forall j :: 0 <= j < |reqs| ==> RequestKeepsKeys(states[j], reqs[j])
    requires forall j :: 0 <= j < |reqs| ==> MemRequest(states[j], reqs[j], states[j + 1], validator)
    requires i < |states|
    ensures KeyInvariant(states[i])
  {
    hide MemRequest, RequestKeepsKeys;
    if i > 0 {
      MemInvariant(states, reqs, validator, i - 1);
      var j := i - 1;
      assert MemRequest(states[j], reqs[j], states[j + 1], validator);
      MemRequestKeeps(states[j], reqs[j], states[i], validator);
    }
  }

  // ----- refinement over whole runs -----

  lemma StepKeeps(t: Coll, cmd: Command, next: Coll, reply: Reply, validator: Document)
    requires KeyInvariant(t) && TidbStep(t, cmd, next, reply, validator)
    ensures KeyInvariant(next)
  {
    match cmd
    case InsertCommand(docs) =>
      InsertKeeps(t, docs, validator);
    case FindCommand(req) =>
    case CountCommand(filter) =>
    case UpdateCommand(op) =>
      TidbUpdateKeeps(t, Scan(t), op, next, Ok(reply.result));
    case DeleteCommand(op) =>
      TidbDeletesKeep(t, Scan(t), [op]);
  }

  /** Every run of the TiDB store is a run of the memory store: the same states and the
      same replies.  Updates must keep the keys of the documents they change, and `_id`
      lookups must meet no equal `_id` under another key. */
  lemma {:induction false} RunsRefine(states: seq<Coll>, cmds: seq<Command>, replies: seq<Reply>, validator: Document)
    requires TidbRun(states, cmds, replies, validator)
    requires KeyInvariant(states[0])
    requires forall i :: 0 <= i < |cmds| ==> Admissible(states[i], cmds[i])
    ensures MemRun(states, cmds, replies, validator)
    ensures forall i :: 0 <= i < |states| ==> KeyInvariant(states[i])
  {
    RunInvariant(states, cmds, replies, validator, |cmds|);
    forall i | 0 <= i < |cmds| ensures MemStep(states[i], cmds[i], states[i + 1], replies[i], validator) {
      StepRefines(states[i], cmds[i], states[i + 1], replies[i], validator);
    }
  }

  lemma {:induction false} RunInvariant(
      states: seq<Coll>, cmds: seq<Command>, replies: seq<Reply>, validator: Document, n: nat)
    requires TidbRun(states, cmds, replies, validator) && n <= |cmds|
    requires KeyInvariant(states[0])
    ensures forall i :: 0 <= i <= n ==> KeyInvariant(states[i])
  {
    hide TidbStep;
    if n > 0 {
      RunInvariant(states, cmds, replies, validator, n - 1);
      assert TidbStep(states[n - 1], cmds[n - 1], states[n - 1 + 1], replies[n - 1], validator);
      StepKeeps(states[n - 1], cmds[n - 1], states[n], replies[n - 1], validator);
    }
  }
}
