/** What single requests do to a collection, stated without their loops: exact insert
    conditions, atomic updates, and what goes wrong when an update changes `_id`. */
module StoreLaws {
  import opened Bson
  import opened Collections
  import Invariants
  import opened Keys
  import opened Matching
  import opened Queries
  import opened Refinement
  import StableSort
  import opened Updates

  // ----- insert -----

  /** Every document validates and has a key; no key is taken or given twice. */
  ghost predicate Acceptable(c: Coll, docs: seq<Document>, validator: Document) {
    && (forall i :: 0 <= i < |docs| ==> Accepted(c, docs[i], validator))
    && forall i, j :: 0 <= i < j < |docs| ==> DocumentIDKey(docs[i]) != DocumentIDKey(docs[j])
  }

  ghost predicate Accepted(c: Coll, doc: Document, validator: Document) {
    Validates(validator, doc) && DocumentIDKey(doc).Ok? && DocumentIDKey(doc).value !in c
  }

  /** `next` holds `c` and the documents, each under its key, and nothing else. */
  ghost predicate Added(c: Coll, docs: seq<Document>, next: Coll) {
    && (forall k :: k in c ==> k in next && next[k] == c[k])
    && (forall i :: 0 <= i < |docs| ==>
          && DocumentIDKey(docs[i]).Ok? && DocumentIDKey(docs[i]).value in next
          && next[DocumentIDKey(docs[i]).value] == docs[i])
    && forall k :: k in next && k !in c ==> exists i :: 0 <= i < |docs| && DocumentIDKey(docs[i]) == Ok(k)
  }

  lemma FirstAcceptable(c: Coll, docs: seq<Document>, validator: Document)
    requires docs != []
    ensures Acceptable(c, docs, validator) <==>
            && Accepted(c, docs[0], validator)
            && Acceptable(c[DocumentIDKey(docs[0]).value := docs[0]], docs[1..], validator)
  {
    var rest := docs[1..];
    assert forall i :: 0 <= i < |rest| ==> rest[i] == docs[i + 1];
    assert forall i :: 0 < i < |docs| ==> docs[i] == rest[i - 1];
    if Accepted(c, docs[0], validator) {
      var later := c[DocumentIDKey(docs[0]).value := docs[0]];
      forall doc | DocumentIDKey(doc).Ok?
        ensures Accepted(later, doc, validator) <==>
                Accepted(c, doc, validator) && DocumentIDKey(doc) != DocumentIDKey(docs[0])
      {
      }
      assert Acceptable(c, docs, validator) ==> Acceptable(later, rest, validator);
      if Acceptable(later, rest, validator) {
        forall i, j | 0 <= i < j < |docs| ensures DocumentIDKey(docs[i]) != DocumentIDKey(docs[j]) {
          assert Accepted(later, rest[j - 1], validator);
          assert i > 0 ==> docs[i] == rest[i - 1];
        }
      }
    }
  }

  lemma FirstAdded(c: Coll, docs: seq<Document>, next: Coll)
    requires docs != [] && DocumentIDKey(docs[0]).Ok?
    requires Added(c[DocumentIDKey(docs[0]).value := docs[0]], docs[1..], next)
    requires DocumentIDKey(docs[0]).value !in c
    ensures Added(c, docs, next)
  {
    var rest := docs[1..];
    assert forall i :: 0 < i < |docs| ==> docs[i] == rest[i - 1];
    forall k | k in next && k !in c ensures exists i :: 0 <= i < |docs| && DocumentIDKey(docs[i]) == Ok(k) {
      if k != DocumentIDKey(docs[0]).value {
        var i :| 0 <= i < |rest| && DocumentIDKey(rest[i]) == Ok(k);
        assert docs[i + 1] == rest[i];
      }
    }
  }

  /** An insert succeeds exactly when every document is acceptable, and then adds exactly
      the documents. */
  lemma {:induction false} InsertExactly(c: Coll, docs: seq<Document>, validator: Document)
    ensures InsertInto(c, docs, validator).ok <==> Acceptable(c, docs, validator)
    ensures InsertInto(c, docs, validator).ok ==> Added(c, docs, InsertInto(c, docs, validator).coll)
    decreases |docs|
  {
    if docs != [] {
      FirstAcceptable(c, docs, validator);
      if Accepted(c, docs[0], validator) {
        var later := c[DocumentIDKey(docs[0]).value := docs[0]];
        InsertExactly(later, docs[1..], validator);
        if Acceptable(later, docs[1..], validator) {
          FirstAdded(c, docs, InsertInto(c, docs, validator).coll);
        }
      }
    }
  }

  /** An insert that is refused has added the documents before the refused one, which is
      not acceptable beside them. */
  lemma {:induction false} RefusedInsertKeepsFirst(c: Coll, docs: seq<Document>, validator: Document) returns (n: nat)
    requires !InsertInto(c, docs, validator).ok
    ensures n < |docs| && Acceptable(c, docs[..n], validator)
    ensures Added(c, docs[..n], InsertInto(c, docs, validator).coll)
    ensures !Accepted(InsertInto(c, docs, validator).coll, docs[n], validator)
    decreases |docs|
  {
    if !Accepted(c, docs[0], validator) {
      n := 0;
    } else {
      var later := c[DocumentIDKey(docs[0]).value := docs[0]];
      var m := RefusedInsertKeepsFirst(later, docs[1..], validator);
      n := m + 1;
      assert docs[..n][0] == docs[0] && docs[..n][1..] == docs[1..][..m];
      FirstAcceptable(c, docs[..n], validator);
      FirstAdded(c, docs[..n], InsertInto(c, docs, validator).coll);
    }
  }

  /** On TiDB an insert adds all documents when all are acceptable, and none otherwise. */
  lemma TidbInsertExactly(t: Coll, docs: seq<Document>, validator: Document)
    ensures TidbInsert(t, docs, validator).ok <==> Acceptable(t, docs, validator)
    ensures if Acceptable(t, docs, validator) then Added(t, docs, TidbInsert(t, docs, validator).coll)
            else TidbInsert(t, docs, validator).coll == t
  {
    InsertExactly(t, docs, validator);
  }

  // ----- update -----

  /** The counters of a request are the sums of those of its updates. */
  lemma CountersAddUp(c: Coll, a: UpdateModel, b: UpdateModel, next: Coll, res: Result<UpdateResult>)
    returns (mid: Coll, x: UpdateResult, y: UpdateResult)
    requires MemUpdates(c, [a, b], next, res) && res.Ok?
    ensures MemUpdate(c, a, mid, x) && MemUpdate(mid, b, next, y)
    ensures res.value.matched == x.matched + y.matched && res.value.modified == x.modified + y.modified
    ensures res.value.upserted == x.upserted + y.upserted
  {
    hide MemUpdate, UpdateFails;
    var ops, rest := [a, b], res;
    assert ops[1..] == [b];
    mid, x, rest :| MemUpdate(c, ops[0], mid, x) && MemUpdates(mid, ops[1..], next, rest) && res == Chain(x, rest);
    y := TheUpdate(mid, b, next, rest);
  }

  /** One update on the memory store is all or nothing.  An unsupported update fails
      exactly when there is something to apply it to, and a failed update changes
      nothing.  A supported one without upsert succeeds and rewrites every match, or one
      of them, exactly once, and no other document. */
  lemma UpdateAtomicity(c: Coll, op: UpdateModel, next: Coll, res: Result<UpdateResult>)
    requires MemUpdates(c, [op], next, res)
    ensures res.Err? ==> next == c
    ensures !Succeeds(op.update) ==> (res.Err? <==> MatchSet(c, op.filter) != {} || op.upsert)
    ensures Succeeds(op.update) && !op.upsert ==>
              res.Ok? && exists hit ::
                Rewrites(c, hit, op.update, next) && res.value == UpdateResult(|hit|, |hit|, [])
                && if op.multi then hit == MatchSet(c, op.filter)
                   else hit <= MatchSet(c, op.filter) && |hit| == if MatchSet(c, op.filter) == {} then 0 else 1
  {
    hide Rewrites, Succeeds;
    if res.Ok? {
      var r := TheUpdate(c, op, next, res);
      UpdateHits(c, op, next, r);
    } else {
      NoUpdate(c, op, next, res);
      FailureWritesNothing(c, op, next);
    }
  }

  lemma TheUpdate(c: Coll, op: UpdateModel, next: Coll, res: Result<UpdateResult>) returns (r: UpdateResult)
    requires MemUpdates(c, [op], next, res) && res.Ok?
    ensures MemUpdate(c, op, next, r) && res == Ok(r)
  {
    hide MemUpdate;
    assert [op][1..] == [];
    var mid, rest;
    mid, r, rest :| MemUpdate(c, [op][0], mid, r) && MemUpdates(mid, [op][1..], next, rest) && res == Chain(r, rest);
    assert r.upserted + [] == r.upserted;
  }

  lemma NoUpdate(c: Coll, op: UpdateModel, next: Coll, res: Result<UpdateResult>)
    requires MemUpdates(c, [op], next, res) && res.Err?
    ensures UpdateFails(c, op, next)
  {
    assert [op][1..] == [];
  }

  lemma UpdateHits(c: Coll, op: UpdateModel, next: Coll, r: UpdateResult)
    requires MemUpdate(c, op, next, r)
    ensures !Succeeds(op.update) ==> MatchSet(c, op.filter) == {} && !op.upsert
    ensures !op.upsert ==>
              exists hit ::
                Rewrites(c, hit, op.update, next) && r == UpdateResult(|hit|, |hit|, [])
                && if op.multi then hit == MatchSet(c, op.filter)
                   else hit <= MatchSet(c, op.filter) && |hit| == if MatchSet(c, op.filter) == {} then 0 else 1
  {
    var matched := MatchSet(c, op.filter);
    if matched != {} {
      var k :| k in matched && (op.multi || (Rewrites(c, {k}, op.update, next) && r == UpdateResult(1, 1, [])));
      assert CanBecome(c[k], op.update, next[k]);
    } else if !op.upsert {
      assert Rewrites(c, {}, op.update, next);
    }
  }

  /** An update of one document, when only one matches. */
  lemma OnlyMatchRewritten(c: Coll, op: UpdateModel, k: string, next: Coll, r: UpdateResult)
    requires MatchSet(c, op.filter) == {k} && !op.multi && MemUpdate(c, op, next, r)
    ensures k in c && Rewrites(c, {k}, op.update, next)
  {
    assert k in MatchSet(c, op.filter);
    var l :| l in MatchSet(c, op.filter) && Rewrites(c, {l}, op.update, next);
    assert l == k;
  }

  lemma OneRewritten(c: Coll, k: string, u: Document, next: Coll)
    requires k in c && Rewrites(c, {k}, u, next)
    ensures k in next && CanBecome(c[k], u, next[k]) && next == c[k := next[k]]
  {
  }

  // ----- which finds are safe -----

  predicate SameType(id: Value, v: Value) {
    match v
    case ObjectID(_) => id.ObjectID?
    case Str(_) => id.Str?
    case Int32(_) => id.Int32?
    case Int64(_) => id.Int64?
    case _ => false
  }

  /** `fmt.Sprint` writes different ObjectIDs differently. */
  ghost predicate ObjectIDsRenderApart() {
    forall x: Value, y: Value :: x.ObjectID? && y.ObjectID? && RenderComposite(x) == RenderComposite(y) ==> x == y
  }

  /** `_id`s of one type are equal only when their keys are, so an `_id` lookup among
      ObjectIDs, among strings, among int32s or among int64s misses nothing. */
  lemma OneTypeIsSafe(t: Coll, v: Value)
    requires KeyInvariant(t) && forall k :: k in t ==> SameType(Lookup(t[k], "_id"), v)
    requires v.ObjectID? ==> ObjectIDsRenderApart()
    ensures OnlyItsKey(t, v)
  {
    forall k | k in t && ValueEquals(Lookup(t[k], "_id"), v) ensures Ok(k) == ValueKey(v) {
      assert DocumentIDKey(t[k]) == Ok(k);
      SameTypeEqual(t[k]["_id"], v);
    }
  }

  lemma SameTypeEqual(id: Value, v: Value)
    requires SameType(id, v) && (v.ObjectID? ==> ObjectIDsRenderApart())
    ensures ValueEquals(id, v) <==> id == v
  {
    if v.ObjectID? {
      assert Equal(id, v) <==> RenderComposite(id) == RenderComposite(v);
    }
  }

  // ----- which updates keep the keys -----

  ghost function SomeOutcome(doc: Document, u: Document): (next: Document)
    requires Succeeds(u)
    ensures CanBecome(doc, u, next)
  {
    SomeOutcomeExists(doc, u);
    var next :| CanBecome(doc, u, next);
    next
  }

  lemma SomeOutcomeExists(doc: Document, u: Document)
    requires Succeeds(u)
    ensures exists next :: CanBecome(doc, u, next)
  {
    var next := OutcomeExists(doc, u, 0);
    assert CanBecome(doc, u, next);
  }

  /** A table in which `k` became `doc` and the other given documents became something. */
  ghost function RewrittenTo(c: Coll, keys: set<string>, u: Document, k: string, doc: Document): Coll
    requires Succeeds(u)
  {
    map l | l in c :: if l == k then doc else if l in keys then SomeOutcome(c[l], u) else c[l]
  }

  lemma RewritesTo(c: Coll, keys: set<string>, u: Document, k: string, doc: Document)
    requires Succeeds(u) && k in keys && k in c && CanBecome(c[k], u, doc)
    ensures var next := RewrittenTo(c, keys, u, k, doc);
            Rewrites(c, keys, u, next) && k in next && next[k] == doc
  {
    hide CanBecome;
  }

  /** Every answer of the memory store to the update keeps the key invariant. */
  ghost predicate AlwaysKeepsInvariant(c: Coll, op: UpdateModel) {
    forall next, r :: MemUpdate(c, op, next, r) ==> KeyInvariant(next)
  }

  /** A supported update that matches something keeps the key invariant of the memory
      store, for every map order, exactly when it keeps the key of every match. */
  lemma KeepsKeysExactly(c: Coll, op: UpdateModel)
    requires KeyInvariant(c) && Succeeds(op.update) && MatchSet(c, op.filter) != {}
    ensures AlwaysKeepsInvariant(c, op) <==> KeepsKeys(c, MatchSet(c, op.filter), op.update)
  {
    var matched := MatchSet(c, op.filter);
    if KeepsKeys(c, matched, op.update) {
      forall next, r | MemUpdate(c, op, next, r) ensures KeyInvariant(next) {
        Invariants.MemUpdateKeeps(c, op, next, r);
      }
    } else {
      var k, doc :| k in matched && k in c && CanBecome(c[k], op.update, doc) && DocumentIDKey(doc) != Ok(k);
      Misfiles(c, op, k, doc);
    }
  }

  lemma Misfiles(c: Coll, op: UpdateModel, k: string, doc: Document)
    requires Succeeds(op.update) && k in MatchSet(c, op.filter)
    requires CanBecome(c[k], op.update, doc) && DocumentIDKey(doc) != Ok(k)
    ensures !AlwaysKeepsInvariant(c, op)
  {
    var matched := MatchSet(c, op.filter);
    var hit := if op.multi then matched else {k};
    var next := RewrittenTo(c, hit, op.update, k, doc);
    RewritesTo(c, hit, op.update, k, doc);
    var r := UpdateResult(|hit|, |hit|, []);
    assert MemUpdate(c, op, next, r);
    assert next[k] == doc;
  }

  /** A replacement that carries the `_id` of the one document it can match keeps its key,
      although it names `_id`. */
  lemma ReplacementKeepsKeys(c: Coll, filter: Document, u: Document, k: string)
    requires !OperatorStyle(u) && DocumentIDKey(u) == Ok(k) && MatchSet(c, filter) <= {k}
    ensures KeepsKeys(c, MatchSet(c, filter), u) && !IdSafe(u)
  {
    forall l, doc | l in MatchSet(c, filter) && CanBecome(c[l], u, doc) ensures DocumentIDKey(doc) == Ok(l) {
      var now :| Outcome(c[l], u, now, doc);
      assert u != map[] && doc == u;
    }
  }

  // ----- updates that change `_id` -----

  const RE_ID := UpdateModel(map[], OneField("$set", "_id", Str("b")), false, false)

  function Named(id: string): Document {
    map["_id" := Str(id)]
  }

  function OneNamed(id: string): Coll {
    map["string:" + id := Named(id)]
  }

  lemma ReIdOutcome(doc: Document, next: Document)
    ensures CanBecome(doc, RE_ID.update, next) <==> next == doc["_id" := Str("b")]
    ensures Succeeds(RE_ID.update)
  {
    OneFieldStep("$set", "_id", Str("b"));
    forall now ensures Outcome(doc, RE_ID.update, now, next) <==> next == doc["_id" := Str("b")] {
      OneFieldOutcome(doc, "$set", "_id", Str("b"), now, next);
    }
    assert Outcome(doc, RE_ID.update, 0, next) <==> next == doc["_id" := Str("b")];
  }

  /** The hypothesis that updates keep `_id` is needed: setting `_id` leaves the memory
      store with a document under a key that is not its own, and TiDB with two documents
      where there was one. */
  lemma ChangedIdDiverges(next: Coll, r: UpdateResult, tidb: Coll, res: Result<UpdateResult>)
    requires MemUpdate(OneNamed("a"), RE_ID, next, r)
    requires TidbUpdate(OneNamed("a"), Scan(OneNamed("a")), RE_ID, tidb, res)
    ensures next == map["string:a" := Named("b")] && !KeyInvariant(next)
    ensures tidb == map["string:a" := Named("a"), "string:b" := Named("b")]
  {
    ReIdInMemory(next, r);
    ReIdOnTidb(tidb, res);
  }

  lemma ReIdInMemory(next: Coll, r: UpdateResult)
    requires MemUpdate(OneNamed("a"), RE_ID, next, r)
    ensures next == map["string:a" := Named("b")] && !KeyInvariant(next)
  {
    hide MemUpdate;
    assert "string:" + "a" == "string:a";
    OnlyOneRewritten(OneNamed("a"), "string:a", Named("a"), next, r);
    assert Named("a")["_id" := Str("b")] == Named("b");
    assert "string:" + "b" == "string:b" && "string:b"[7] != "string:a"[7];
    assert DocumentIDKey(next["string:a"]) == Ok("string:b");
  }

  lemma OnlyOneRewritten(c: Coll, k: string, doc: Document, next: Coll, r: UpdateResult)
    requires c == map[k := doc] && MemUpdate(c, RE_ID, next, r)
    ensures next == map[k := doc["_id" := Str("b")]]
  {
    hide MemUpdate, Rewrites;
    assert MatchSet(c, RE_ID.filter) == {k};
    OnlyMatchRewritten(c, RE_ID, k, next, r);
    OneRewritten(c, k, RE_ID.update, next);
    ReIdOutcome(doc, next[k]);
  }

  lemma ReIdOnTidb(next: Coll, res: Result<UpdateResult>)
    requires TidbUpdate(OneNamed("a"), Scan(OneNamed("a")), RE_ID, next, res)
    ensures next == map["string:a" := Named("a"), "string:b" := Named("b")]
  {
    hide TidbUpdate;
    assert "string:" + "a" == "string:a" && "string:" + "b" == "string:b";
    assert Named("a")["_id" := Str("b")] == Named("b");
    OnlyOneReplaced(OneNamed("a"), "string:a", Named("a"), "string:b", next, res);
  }

  lemma OnlyOneReplaced(t: Coll, k: string, doc: Document, l: string, next: Coll, res: Result<UpdateResult>)
    requires t == map[k := doc] && DocumentIDKey(doc["_id" := Str("b")]) == Ok(l)
    requires TidbUpdate(t, Scan(t), RE_ID, next, res)
    ensures next == t[l := doc["_id" := Str("b")]]
  {
    ScanSingle(t, k, doc);
    OneReplaced(t, doc, l, next, res.Ok?);
  }

  lemma OneReplaced(t: Coll, doc: Document, l: string, next: Coll, ok: bool)
    requires DocumentIDKey(doc["_id" := Str("b")]) == Ok(l)
    requires ReplaceEach(t, [doc], RE_ID.update, next, ok)
    ensures next == t[l := doc["_id" := Str("b")]]
  {
    ReIdOutcome(doc, doc);
    assert [doc][1..] == [];
    var written :|
      && CanBecome([doc][0], RE_ID.update, written)
      && if DocumentIDKey(written).Err? then next == t && !ok
         else ReplaceEach(t[DocumentIDKey(written).value := written], [doc][1..], RE_ID.update, next, ok);
    ReIdOutcome(doc, written);
  }

  lemma ScanSingle(t: Coll, k: string, doc: Document)
    requires t == map[k := doc]
    ensures Targets(Scan(t), RE_ID) == [doc]
  {
    assert t.Keys == {k};
    var order := ScanOrder(t.Keys);
    assert order[0] in t.Keys && t.Keys - {order[0]} == {};
    assert Scan(t) == [doc];
    StableSort.FilterAll(Passes(Map(map[])), [doc]);
  }
}
