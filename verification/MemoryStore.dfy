/** The in-memory store (internal/backend/memory/memory.go).  Every method holds the
    lock throughout, so it is one atomic step; map iteration order is arbitrary. */
module MemoryStore {
  import opened Bson
  import opened Enumerations
  import opened Collections
  import opened Keys
  import Matching
  import opened Pipelines
  import PipelineExecution
  import opened Queries
  import opened StableSort
  import opened Updates

  /** The first match alone, or every one of them. */
  ghost predicate Chosen(every: bool, matched: set<string>, hit: set<string>) {
    if every || matched == {} then hit == matched else |hit| == 1 && hit <= matched
  }

  /** `hit` are the matches met so far; `todo` are the keys not visited yet. */
  ghost predicate Met(every: bool, matched: set<string>, hit: set<string>, todo: set<string>) {
    hit <= matched <= hit + todo && hit !! todo && (hit != {} ==> every)
  }

  lemma Unmet(every: bool, matched: set<string>, hit: set<string>, todo: set<string>, key: string)
    requires Met(every, matched, hit, todo) && key in todo && key !in matched
    ensures Met(every, matched, hit, todo - {key})
  {
  }

  lemma MetOne(every: bool, matched: set<string>, hit: set<string>, todo: set<string>, key: string)
    requires Met(every, matched, hit, todo) && key in todo && key in matched
    ensures every ==> Met(every, matched, hit + {key}, todo - {key})
    ensures !every ==> Chosen(every, matched, hit + {key})
    ensures |hit + {key}| == |hit| + 1
  {
  }

  lemma AllMet(every: bool, matched: set<string>, hit: set<string>)
    requires Met(every, matched, hit, {})
    ensures Chosen(every, matched, hit)
  {
  }

  lemma ChosenOne(matched: set<string>, hit: set<string>) returns (k: string)
    requires Chosen(false, matched, hit) && matched != {}
    ensures k in matched && hit == {k}
  {
    k :| k in hit;
    assert |hit - {k}| == 0;
    assert hit == {k};
  }

  lemma HitOne(c: Coll, hit: set<string>, u: Document, next: Coll, key: string, doc: Document)
    requires Rewrites(c, hit, u, next) && key in c && key !in hit && CanBecome(c[key], u, doc)
    ensures Rewrites(c, hit + {key}, u, next[key := doc])
  {
    var later := next[key := doc];
    forall k | k in c ensures if k in hit + {key} then CanBecome(c[k], u, later[k]) else later[k] == c[k] {
      assert if k in hit then CanBecome(c[k], u, next[k]) else next[k] == c[k];
    }
  }

  /** One update over the collection, each match written back as soon as it is updated. */
  method UpdateCollection(c: Coll, op: UpdateModel, now: int) returns (next: Coll, r: UpdateResult, ok: bool)
    ensures ok ==> MemUpdate(c, op, next, r)
    ensures !ok ==> UpdateFails(c, op, next)
  {
    var n: nat;
    ghost var hit;
    next, n, ok, hit := RewriteMatches(c, op, now, MatchSet(c, op.filter));
    r := UpdateResult(n, n, []);
    if !ok {
      return;
    }
    RewrittenMatches(c, op, hit, next);
    if n == 0 && op.upsert {
      next, r, ok := Upsert(c, op, now);
    }
  }

  lemma RewrittenMatches(c: Coll, op: UpdateModel, hit: set<string>, next: Coll)
    requires Rewrites(c, hit, op.update, next)
    requires Chosen(op.multi, MatchSet(c, op.filter), hit)
    ensures |hit| == 0 <==> MatchSet(c, op.filter) == {}
    ensures |hit| == 0 ==> next == c
    ensures |hit| > 0 ==> MemUpdate(c, op, next, UpdateResult(|hit|, |hit|, []))
  {
    if hit == {} {
      NoHit(c, op.update, next);
    } else if !op.multi {
      var k := ChosenOne(MatchSet(c, op.filter), hit);
    }
  }

  /** The loop over the collection: every match, or the first one met. */
  method RewriteMatches(c: Coll, op: UpdateModel, now: int, ghost matched: set<string>)
    returns (next: Coll, n: nat, ok: bool, ghost hit: set<string>)
    requires AreMatches(c, op.filter, matched)
    ensures ok ==> n == |hit| && Rewrites(c, hit, op.update, next) && Chosen(op.multi, matched, hit)
    ensures !ok ==> !Succeeds(op.update) && hit < matched && Rewrites(c, hit, op.update, next)
  {
    hide AreMatches, Rewrites, Succeeds;
    next, n, hit := c, 0, {};
    var todo := c.Keys;
    NothingMet(c, op, matched);
    while todo != {}
      invariant todo <= c.Keys
      invariant Met(op.multi, matched, hit, todo)
      invariant Rewrites(c, hit, op.update, next)
      invariant n == |hit|
      decreases todo
    {
      var key :| key in todo;
      var matches;
      next, matches, ok := RewriteOne(c, hit, next, op, key, now, matched);
      if !ok {
        return;
      }
      if matches {
        MetOne(op.multi, matched, hit, todo, key);
        hit, n := hit + {key}, n + 1;
        if !op.multi {
          return;
        }
      } else {
        Unmet(op.multi, matched, hit, todo, key);
      }
      todo := todo - {key};
    }
    ok := true;
    AllMet(op.multi, matched, hit);
  }

  lemma NothingMet(c: Coll, op: UpdateModel, matched: set<string>)
    requires AreMatches(c, op.filter, matched)
    ensures Met(op.multi, matched, {}, c.Keys) && Rewrites(c, {}, op.update, c)
  {
  }

  method RewriteOne(
      c: Coll, ghost hit: set<string>, was: Coll, op: UpdateModel, key: string, now: int, ghost matched: set<string>)
    returns (next: Coll, matches: bool, ok: bool)
    requires AreMatches(c, op.filter, matched)
    requires Rewrites(c, hit, op.update, was) && key in c && key !in hit
    ensures matches <==> key in matched
    ensures !ok ==> matches && !Succeeds(op.update) && next == was
    ensures ok ==> Rewrites(c, if matches then hit + {key} else hit, op.update, next)
  {
    next, ok := was, true;
    matches := Matching.MatchesLoop(was[key], Map(op.filter));
    if matches {
      var doc;
      doc, ok := UpdateClone(was[key], op.update, now);
      if ok {
        HitOne(c, hit, op.update, was, key, doc);
        next := was[key := doc];
      }
    }
  }

  method Upsert(c: Coll, op: UpdateModel, now: int) returns (next: Coll, r: UpdateResult, ok: bool)
    requires MatchSet(c, op.filter) == {} && op.upsert
    ensures ok ==> Upserts(c, op, next, r)
    ensures !ok ==> UpdateFails(c, op, next)
  {
    next, r := c, NOTHING;
    var base, applied := UpdateClone(op.filter, op.update, now);
    if !applied {
      return c, NOTHING, false;
    }
    var doc := WithId(base, now);
    assert CanUpsert(op, doc);
    var key := DocumentIDKey(doc);
    if key.Err? {
      return c, NOTHING, false;
    }
    return c[key.value := doc], UpsertResult(doc), true;
  }

  /** `matched` are the keys of the documents that pass the filter. */
  ghost predicate AreMatches(c: Coll, filter: Document, matched: set<string>) {
    matched <= c.Keys && forall k :: k in c ==> (k in matched <==> Matching.Matches(c[k], Map(filter)))
  }

  /** One delete over the collection. */
  method DeleteFrom(c: Coll, op: DeleteModel) returns (next: Coll, n: nat)
    ensures MemDelete(c, op, next, n)
  {
    ghost var matched := MatchSet(c, op.filter);
    ghost var hit;
    next, n, hit := DeleteMatches(c, op, matched);
    if op.limit == 1 && matched != {} {
      ghost var k := ChosenOne(matched, hit);
    }
  }

  /** The loop over the collection: every match, or the first one met. */
  method DeleteMatches(c: Coll, op: DeleteModel, ghost matched: set<string>)
    returns (next: Coll, n: nat, ghost hit: set<string>)
    requires AreMatches(c, op.filter, matched)
    ensures next == c - hit && n == |hit| && Chosen(op.limit != 1, matched, hit)
  {
    next, n, hit := c, 0, {};
    var todo := c.Keys;
    assert c - {} == c;
    while todo != {}
      invariant todo <= c.Keys
      invariant Met(op.limit != 1, matched, hit, todo)
      invariant next == c - hit && n == |hit|
      decreases todo
    {
      var key :| key in todo;
      var matches;
      next, matches := DeleteOne(c, hit, next, op, key, matched);
      if matches {
        MetOne(op.limit != 1, matched, hit, todo, key);
        hit, n := hit + {key}, n + 1;
        if op.limit == 1 {
          return;
        }
      } else {
        Unmet(op.limit != 1, matched, hit, todo, key);
      }
      todo := todo - {key};
    }
    AllMet(op.limit != 1, matched, hit);
  }

  method DeleteOne(
      c: Coll, ghost hit: set<string>, was: Coll, op: DeleteModel, key: string, ghost matched: set<string>)
    returns (next: Coll, matches: bool)
    requires AreMatches(c, op.filter, matched)
    requires was == c - hit && key in c && key !in hit
    ensures matches <==> key in matched
    ensures next == c - if matches then hit + {key} else hit
  {
    next := was;
    matches := Matching.MatchesLoop(was[key], Map(op.filter));
    if matches {
      next := was - {key};
      assert c - hit - {key} == c - (hit + {key});
    }
  }

  /** The updates of a request in order, each over the result of the one before. */
  method UpdateAll(c: Coll, ops: seq<UpdateModel>, now: int) returns (coll: Coll, res: Result<UpdateResult>)
    ensures MemUpdates(c, ops, coll, res)
  {
    coll := c;
    var total := NOTHING;
    assert ops[0..] == ops;
    StartUpdates(c, ops);
    for i := 0 to |ops|
      invariant UpdatesLeadOn(c, ops, coll, ops[i..], total)
    {
      assert ops[i..][0] == ops[i] && ops[i..][1..] == ops[i + 1..];
      var next, r, ok := UpdateCollection(coll, ops[i], now);
      if !ok {
        FailedUpdate(c, ops, coll, ops[i..], next, total);
        return next, Err("update failed");
      }
      MoreUpdates(c, ops, coll, ops[i..], next, r, total);
      coll, total := next, Plus(total, r);
    }
    assert ops[|ops|..] == [];
    LastUpdate(c, ops, coll, total);
    res := Ok(total);
  }

  method DeleteAll(c: Coll, ops: seq<DeleteModel>) returns (coll: Coll, deleted: nat)
    ensures MemDeletes(c, ops, coll, deleted)
  {
    coll, deleted := c, 0;
    assert ops[0..] == ops;
    for i := 0 to |ops|
      invariant DeletesLeadOn(c, ops, coll, ops[i..], deleted)
    {
      assert ops[i..][0] == ops[i] && ops[i..][1..] == ops[i + 1..];
      var next, n := DeleteFrom(coll, ops[i]);
      MoreDeletes(c, ops, coll, ops[i..], next, n, deleted);
      coll, deleted := next, deleted + n;
    }
    assert ops[|ops|..] == [];
    assert MemDeletes(coll, [], coll, 0);
  }

  class Store {
    var collections: map<string, Coll>
    var options: map<string, Document>

    constructor ()
      ensures collections == map[] && options == map[]
    {
      collections, options := map[], map[];
    }

    function Collection(ns: string): Coll
      reads this
    {
      if ns in collections then collections[ns] else map[]
    }

    function Validator(ns: string): Document
      reads this
    {
      if ns in options then AsMap(Lookup(options[ns], "validator")) else map[]
    }

    /** Every collection but `ns`, and all options, are as before. */
    twostate predicate OnlyCollection(ns: string)
      reads this
    {
      && options == old(options)
      && forall other :: other != ns ==>
           (other in collections <==> other in old(collections)) && Collection(other) == old(Collection(other))
    }

    method CreateCollection(ns: string, validator: Document)
      modifies this
      ensures collections == old(collections)[ns := old(Collection(ns))]
      ensures options == old(options)[ns := if validator == map[] then map[] else map["validator" := Map(validator)]]
      ensures Validator(ns) == validator && forall other :: other != ns ==> Validator(other) == old(Validator(other))
    {
      if ns !in collections {
        collections := collections[ns := map[]];
      }
      options := options[ns := if validator == map[] then map[] else map["validator" := Map(validator)]];
    }

    method DropCollection(ns: string)
      modifies this
      ensures collections == old(collections) - {ns} && options == old(options) - {ns} && Validator(ns) == map[]
    {
      collections := collections - {ns};
      options := options - {ns};
    }

    /** Stops at the first refused document; those before it stay. */
    method Insert(ns: string, docs: seq<Document>) returns (res: Result<nat>)
      modifies this
      ensures OnlyCollection(ns) && ns in collections
      ensures Changed(Collection(ns), res.Ok?) == InsertInto(old(Collection(ns)), docs, old(Validator(ns)))
      ensures res.Ok? ==> res.value == |docs|
    {
      var coll := Collection(ns);
      collections := collections[ns := coll];
      assert docs[0..] == docs;
      for i := 0 to |docs|
        invariant options == old(options)
        invariant collections == old(collections)[ns := coll]
        invariant InsertInto(coll, docs[i..], Validator(ns)) == InsertInto(old(Collection(ns)), docs, old(Validator(ns)))
      {
        assert docs[i..][1..] == docs[i + 1..];
        if !Matching.Validates(Validator(ns), docs[i]) {
          return Err("document validation failed");
        }
        var key := DocumentIDKey(docs[i]);
        if key.Err? {
          return Err(key.error);
        }
        if key.value in coll {
          return Err("duplicate key");
        }
        coll := coll[key.value := docs[i]];
        collections := collections[ns := coll];
      }
      return Ok(|docs|);
    }

    method Find(ns: string, req: FindRequest) returns (docs: seq<Document>)
      ensures MemFind(Collection(ns), req, docs)
    {
      var coll := Collection(ns);
      var todo := coll.Keys;
      var matched: seq<Document> := [];
      ghost var order: seq<string> := [];
      while todo != {}
        invariant todo <= coll.Keys
        invariant Enumerates(order, coll.Keys - todo)
        invariant matched == Filter(Passes(Map(req.filter)), DocsAt(coll, order))
        decreases todo
      {
        var key :| key in todo;
        VisitOne(coll, order, coll.Keys - todo, key, Map(req.filter));
        todo := todo - {key};
        order := order + [key];
        var matches := Matching.MatchesLoop(coll[key], Map(req.filter));
        if matches {
          matched := matched + [coll[key]];
        }
      }
      docs := ApplyFindOptionsLoop(matched, req.options);
      assert coll.Keys - {} == coll.Keys;
    }

    method Count(ns: string, filter: Document) returns (n: nat)
      ensures exists docs :: MemFind(Collection(ns), FindRequest(filter, NO_OPTIONS), docs) && n == |docs|
    {
      var docs := Find(ns, FindRequest(filter, NO_OPTIONS));
      n := |docs|;
    }

    method Update(ns: string, ops: seq<UpdateModel>, now: int) returns (res: Result<UpdateResult>)
      modifies this
      ensures OnlyCollection(ns) && ns in collections
      ensures MemUpdates(old(Collection(ns)), ops, Collection(ns), res)
    {
      var coll;
      coll, res := UpdateAll(Collection(ns), ops, now);
      collections := collections[ns := coll];
    }

    method Delete(ns: string, ops: seq<DeleteModel>) returns (deleted: nat)
      modifies this
      ensures OnlyCollection(ns)
      ensures MemDeletes(old(Collection(ns)), ops, Collection(ns), deleted)
    {
      var coll;
      coll, deleted := DeleteAll(Collection(ns), ops);
      if ns in collections {
        collections := collections[ns := coll];
      } else {
        EmptyStays(ops, coll, deleted);
      }
    }

    /** Runs the pipeline over the whole collection. */
    method Aggregate(ns: string, pipeline: seq<Value>) returns (out: Piped)
      ensures exists docs ::
                MemFind(Collection(ns), FindRequest(map[], NO_OPTIONS), docs) && PipelineRuns(docs, pipeline, out)
    {
      var docs := Find(ns, FindRequest(map[], NO_OPTIONS));
      out := PipelineExecution.ApplyPipeline(docs, pipeline);
    }
  }

  // ----- steps of the loops -----

  lemma VisitOne(c: Coll, order: seq<string>, keys: set<string>, key: string, filter: Value)
    requires Enumerates(order, keys) && keys <= c.Keys && key in c && key !in keys
    ensures Enumerates(order + [key], keys + {key})
    ensures Filter(Passes(filter), DocsAt(c, order + [key])) ==
            Filter(Passes(filter), DocsAt(c, order)) + if Matching.Matches(c[key], filter) then [c[key]] else []
  {
    forall k ensures k in order + [key] <==> k in keys + {key} {
      assert k in order + [key] <==> k in order || k == key;
    }
    assert forall i :: 0 <= i < |order| ==> order[i] in order;
    assert DocsAt(c, order + [key]) == DocsAt(c, order) + [c[key]];
    FilterAppend(Passes(filter), DocsAt(c, order), [c[key]]);
    assert Filter(Passes(filter), [c[key]][1..]) == [];
  }

  /** Whatever the remaining updates do from `c` completes the request. */
  ghost predicate UpdatesLeadOn(
      start: Coll, all: seq<UpdateModel>, c: Coll, ops: seq<UpdateModel>, total: UpdateResult)
  {
    forall next, rest :: MemUpdates(c, ops, next, rest) ==> MemUpdates(start, all, next, Chain(total, rest))
  }

  lemma StartUpdates(c: Coll, ops: seq<UpdateModel>)
    ensures UpdatesLeadOn(c, ops, c, ops, NOTHING)
  {
    forall next, rest | MemUpdates(c, ops, next, rest) ensures MemUpdates(c, ops, next, Chain(NOTHING, rest)) {
      PlusAssociative(NOTHING, NOTHING, rest);
    }
  }

  lemma MoreUpdates(
      start: Coll, all: seq<UpdateModel>, c: Coll, ops: seq<UpdateModel>, mid: Coll, r: UpdateResult, total: UpdateResult)
    requires ops != [] && MemUpdate(c, ops[0], mid, r)
    requires UpdatesLeadOn(start, all, c, ops, total)
    ensures UpdatesLeadOn(start, all, mid, ops[1..], Plus(total, r))
  {
    forall next, rest | MemUpdates(mid, ops[1..], next, rest)
      ensures MemUpdates(start, all, next, Chain(Plus(total, r), rest))
    {
      assert MemUpdates(c, ops, next, Chain(r, rest));
      PlusAssociative(total, r, rest);
    }
  }

  lemma FailedUpdate(
      start: Coll, all: seq<UpdateModel>, c: Coll, ops: seq<UpdateModel>, next: Coll, total: UpdateResult)
    requires UpdatesLeadOn(start, all, c, ops, total) && ops != [] && UpdateFails(c, ops[0], next)
    ensures MemUpdates(start, all, next, Err("update failed"))
  {
    assert MemUpdates(c, ops, next, Err("update failed"));
  }

  lemma LastUpdate(start: Coll, all: seq<UpdateModel>, c: Coll, total: UpdateResult)
    requires UpdatesLeadOn(start, all, c, [], total)
    ensures MemUpdates(start, all, c, Ok(total))
  {
    assert MemUpdates(c, [], c, Ok(NOTHING));
    assert MemUpdates(start, all, c, Chain(total, Ok(NOTHING)));
    PlusNothing(total);
  }

  ghost predicate DeletesLeadOn(start: Coll, all: seq<DeleteModel>, c: Coll, ops: seq<DeleteModel>, total: nat) {
    forall next, n: nat :: MemDeletes(c, ops, next, n) ==> MemDeletes(start, all, next, total + n)
  }

  lemma MoreDeletes(start: Coll, all: seq<DeleteModel>, c: Coll, ops: seq<DeleteModel>, mid: Coll, m: nat, total: nat)
    requires ops != [] && MemDelete(c, ops[0], mid, m)
    requires DeletesLeadOn(start, all, c, ops, total)
    ensures DeletesLeadOn(start, all, mid, ops[1..], total + m)
  {
    forall next, n: nat | MemDeletes(mid, ops[1..], next, n)
      ensures MemDeletes(start, all, next, total + m + n)
    {
      assert MemDeletes(c, ops, next, m + n);
    }
  }

  /** Nothing is deleted from a collection that does not exist. */
  lemma {:induction false} EmptyStays(ops: seq<DeleteModel>, next: Coll, n: nat)
    requires MemDeletes(map[], ops, next, n)
    ensures next == map[]
    decreases |ops|
  {
    if ops != [] {
      var mid, m: nat, rest: nat :|
        MemDelete(map[], ops[0], mid, m) && MemDeletes(mid, ops[1..], next, rest) && n == m + rest;
      assert mid == map[];
      EmptyStays(ops[1..], next, rest);
    }
  }
}
