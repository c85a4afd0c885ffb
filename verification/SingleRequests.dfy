/** A single update or delete on TiDB: the tables it can reach, how it can fail, and the
    request of the memory store it stands for
    (internal/backend/tidb/store.go:256-335, internal/backend/memory/memory.go:172-237). */
module SingleRequests {
  import opened Bson
  import opened Collections
  import opened Enumerations
  import opened Keys
  import opened Refinement
  import opened Updates

  /** Writing rows one by one under their own keys reaches every table in which exactly
      those rows are updated; the converse of `ReplacesRewrite`. */
  lemma {:induction false} RewriteReplaces(t: Coll, keys: seq<string>, u: Document, next: Coll)
    requires forall k :: k in keys ==> k in t
    requires NoRepeats(keys) && KeepsKeys(t, Elements(keys), u)
    requires Rewrites(t, Elements(keys), u, next)
    ensures ReplaceEach(t, DocsAt(t, keys), u, next, true)
    decreases |keys|
  {
    if keys == [] {
      assert next == t;
    } else {
      var k, rest := keys[0], keys[1..];
      FirstOfKeys(t, keys);
      var doc := next[k];
      assert k in Elements(keys);
      assert CanBecome(t[k], u, doc) && DocumentIDKey(doc) == Ok(k);
      KeepsRest(t, keys, u, doc);
      DocsAtElsewhere(t, rest, k, doc);
      RewriteTheRest(t, k, rest, u, next);
      RewriteReplaces(t[k := doc], rest, u, next);
      FirstReplaced(t, DocsAt(t, keys), u, doc, next);
    }
  }

  lemma RewriteTheRest(t: Coll, k: string, rest: seq<string>, u: Document, next: Coll)
    requires k in t && k !in rest && Rewrites(t, Elements(rest) + {k}, u, next)
    ensures Rewrites(t[k := next[k]], Elements(rest), u, next)
  {
    var mid := t[k := next[k]];
    forall l | l in mid ensures if l in Elements(rest) then CanBecome(mid[l], u, next[l]) else next[l] == mid[l] {
      assert if l in Elements(rest) + {k} then CanBecome(t[l], u, next[l]) else next[l] == t[l];
    }
  }

  lemma FirstReplaced(t: Coll, targets: seq<Document>, u: Document, doc: Document, next: Coll)
    requires targets != [] && CanBecome(targets[0], u, doc) && DocumentIDKey(doc).Ok?
    requires ReplaceEach(t[DocumentIDKey(doc).value := doc], targets[1..], u, next, true)
    ensures ReplaceEach(t, targets, u, next, true)
  {
    var now :| Outcome(targets[0], u, now, doc);
    assert Succeeds(u);
  }

  lemma WritesAll(t: Coll, snapshot: seq<Document>, op: UpdateModel, keys: seq<string>, next: Coll)
    requires forall k :: k in keys ==> k in t
    requires NoRepeats(keys) && KeepsKeys(t, Elements(keys), op.update)
    requires Targets(snapshot, op) == DocsAt(t, keys) && (keys == [] ==> !op.upsert)
    requires Rewrites(t, Elements(keys), op.update, next)
    ensures TidbUpdate(t, snapshot, op, next, Ok(UpdateResult(|keys|, |keys|, [])))
  {
    RewriteReplaces(t, keys, op.update, next);
    assert |DocsAt(t, keys)| == |keys|;
  }

  lemma RefusesAll(t: Coll, snapshot: seq<Document>, op: UpdateModel, keys: seq<string>)
    requires forall k :: k in keys ==> k in t
    requires Targets(snapshot, op) == DocsAt(t, keys) && keys != [] && !Succeeds(op.update)
    ensures TidbUpdate(t, snapshot, op, t, Err("update failed"))
  {
    assert DocsAt(t, keys)[0] == t[keys[0]];
  }

  lemma ChangeInMemory(t: Coll, op: UpdateModel, next: Coll, res: Result<UpdateResult>)
    requires UpdateKeepsKeys(t, op) && TidbUpdate(t, Scan(t), op, next, res)
    ensures MemUpdates(t, [op], next, res)
  {
    if res.Ok? {
      UpdateRefines(t, op, next, res.value);
      LoneUpdate(t, op, next, res.value);
    } else {
      FailsInMemory(t, op, next, res);
      LoneFailure(t, op, next, res);
    }
  }

  lemma LoneUpdate(c: Coll, op: UpdateModel, next: Coll, r: UpdateResult)
    requires MemUpdate(c, op, next, r)
    ensures MemUpdates(c, [op], next, Ok(r))
  {
    hide MemUpdate;
    assert [op][1..] == [];
    assert MemUpdates(next, [op][1..], next, Ok(NOTHING));
    PlusNothing(r);
  }

  lemma LoneFailure(c: Coll, op: UpdateModel, next: Coll, res: Result<UpdateResult>)
    requires UpdateFails(c, op, next) && res.Err?
    ensures MemUpdates(c, [op], next, res)
  {
    hide UpdateFails, MemUpdate;
    assert UpdateFails(c, [op][0], next);
  }

  lemma LoneDelete(c: Coll, op: DeleteModel, next: Coll, n: nat)
    requires MemDelete(c, op, next, n)
    ensures MemDeletes(c, [op], next, n)
  {
    hide MemDelete;
    var none: nat := 0;
    assert [op][1..] == [];
    assert MemDelete(c, [op][0], next, n);
    assert MemDeletes(next, [op][1..], next, none);
    assert n == n + none;
  }

  /** A key-keeping update that fails on TiDB fails before its first write, and on the
      memory store too. */
  lemma FailsInMemory(t: Coll, op: UpdateModel, next: Coll, res: Result<UpdateResult>)
    requires UpdateKeepsKeys(t, op) && TidbUpdate(t, Scan(t), op, next, res) && res.Err?
    ensures next == t && UpdateFails(t, op, next)
  {
    var keys := WriteKeys(t, op);
    TargetsByKey(t, ScanOrder(t.Keys), op);
    assert |DocsAt(t, keys)| == |keys|;
    if keys != [] {
      ReplacesFail(t, keys, op.update, next);
      NothingHit(t, op);
    }
  }

  lemma NothingHit(c: Coll, op: UpdateModel)
    requires MatchSet(c, op.filter) != {} && !Succeeds(op.update)
    ensures UpdateFails(c, op, c)
  {
    var none: set<string> := {};
    assert none < MatchSet(c, op.filter) && Rewrites(c, none, op.update, c);
  }

  lemma ReplacesFail(t: Coll, keys: seq<string>, u: Document, next: Coll)
    requires forall k :: k in keys ==> k in t
    requires keys != [] && NoRepeats(keys) && KeepsKeys(t, Elements(keys), u)
    requires ReplaceEach(t, DocsAt(t, keys), u, next, false)
    ensures next == t && !Succeeds(u)
  {
    assert |DocsAt(t, keys)| == |keys|;
    if Succeeds(u) {
      NeverRefused(t, keys, u, next, false);
    }
  }

  lemma {:induction false} NeverRefused(t: Coll, keys: seq<string>, u: Document, next: Coll, ok: bool)
    requires Succeeds(u) && KeepsKeys(t, Elements(keys), u)
    requires forall k :: k in keys ==> k in t
    requires NoRepeats(keys)
    requires ReplaceEach(t, DocsAt(t, keys), u, next, ok)
    ensures ok
    decreases |keys|
  {
    if keys != [] {
      FirstOfKeys(t, keys);
      KeepsRest(t, keys, u, t[keys[0]]);
      var doc := FirstWrite(t, DocsAt(t, keys), u, next, ok, keys[0]);
      KeepsRest(t, keys, u, doc);
      DocsAtElsewhere(t, keys[1..], keys[0], doc);
      NeverRefused(t[keys[0] := doc], keys[1..], u, next, ok);
    }
  }

  lemma FirstWrite(t: Coll, targets: seq<Document>, u: Document, next: Coll, ok: bool, k: string) returns (doc: Document)
    requires targets != [] && k in t && targets[0] == t[k] && KeepsKeys(t, {k}, u) && Succeeds(u)
    requires ReplaceEach(t, targets, u, next, ok)
    ensures ReplaceEach(t[k := doc], targets[1..], u, next, ok)
  {
    doc :|
      && CanBecome(targets[0], u, doc)
      && if DocumentIDKey(doc).Err? then next == t && !ok
         else ReplaceEach(t[DocumentIDKey(doc).value := doc], targets[1..], u, next, ok);
    assert DocumentIDKey(doc) == Ok(k);
  }
}
