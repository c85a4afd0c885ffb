/** The TiDB store refines the memory store: what it does in one step, or over a whole
    run, is something the memory store could have done
    (internal/backend/tidb/store.go:127-335, internal/backend/memory/memory.go:84-237). */
module Refinement {
  import opened Bson
  import opened Enumerations
  import opened Collections
  import opened Keys
  import opened Matching
  import opened Queries
  import opened StableSort
  import opened Updates

  // ----- pushdown -----

  /** The stored `_id`s that a filter value equals under the engine's loose equality all
      have the value's own key. */
  ghost predicate OnlyItsKey(t: Coll, v: Value) {
    forall k :: k in t && ValueEquals(Lookup(t[k], "_id"), v) ==> Ok(k) == ValueKey(v)
  }

  lemma MatchesId(doc: Document, v: Value)
    requires "_id" in doc && !v.Map?
    ensures Matches(doc, Map(map["_id" := v])) <==> ValueEquals(doc["_id"], v)
  {
    SingleEntry(doc, "_id", v);
    assert Single("_id", v) == Map(map["_id" := v]);
  }

  lemma OnlyEntry(filter: Document, key: string)
    requires |filter| == 1 && key in filter
    ensures filter == map[key := filter[key]]
  {
    assert |filter.Keys| == |filter|;
    assert |filter.Keys - {key}| == 0;
    assert filter.Keys == {key};
  }

  lemma FilterOfFilterless(docs: seq<Document>)
    ensures Filter(Passes(Map(map[])), docs) == docs
  {
    FilterAll(Passes(Map(map[])), docs);
  }

  lemma TakeTwice<T>(docs: seq<T>, limit: int)
    ensures limit > 0 ==> Page(Take(limit, docs), 0, limit) == Page(docs, 0, limit)
  {
  }

  /** For the empty filter, handing the limit to SQL commutes with the post-filter. */
  lemma PushedLimitCommutes(t: Coll, limit: int, field: string)
    ensures var req := FindRequest(map[], FindOptions(map[], map[], 0, limit));
            PostProcess(Rows(t, Query(None, limit)), req, field) == PostProcess(Scan(t), req, field)
  {
    FilterOfFilterless(Scan(t));
    FilterOfFilterless(Rows(t, Query(None, limit)));
    TakeTwice(Scan(t), limit);
  }

  /** No more rows are read than the SQL LIMIT says, the first ones in key order. */
  lemma LimitedRows(t: Coll, limit: nat)
    requires limit > 0
    ensures Rows(t, Query(None, limit)) == if limit < |Scan(t)| then Scan(t)[..limit] else Scan(t)
  {
  }

  /** Filtering a scan for one key leaves the row of that key. */
  lemma {:induction false} ScanForKey(t: Coll, order: seq<string>, filter: Value, key: string)
    requires forall k :: k in order ==> k in t
    requires NoRepeats(order)
    requires forall k :: k in order && Matches(t[k], filter) ==> k == key
    ensures Filter(Passes(filter), DocsAt(t, order)) ==
            if key in order && Matches(t[key], filter) then [t[key]] else []
    decreases |order|
  {
    if order != [] {
      var rest := order[1..];
      assert order == [order[0]] + rest;
      assert DocsAt(t, order)[0] == t[order[0]] && DocsAt(t, order)[1..] == DocsAt(t, rest);
      ScanForKey(t, rest, filter, key);
      assert order[0] !in rest;
    }
  }

  lemma IdMatches(t: Coll, v: Value, k: string)
    requires KeyInvariant(t) && k in t && !v.Map?
    ensures "_id" in t[k]
    ensures Matches(t[k], Map(map["_id" := v])) <==> ValueEquals(Lookup(t[k], "_id"), v)
  {
    assert DocumentIDKey(t[k]) == Ok(k);
    MatchesId(t[k], v);
  }

  /** A find on `_id` alone. */
  function IdRequest(v: Value, limit: int): FindRequest {
    FindRequest(map["_id" := v], FindOptions(map[], map[], 0, limit))
  }

  lemma LookupIsScan(t: Coll, v: Value, key: string, limit: int, field: string)
    requires KeyInvariant(t) && !v.Map? && ValueKey(v) == Ok(key)
    requires OnlyItsKey(t, v)
    ensures PostProcess(Rows(t, Query(Some(key), limit)), IdRequest(v, limit), field) ==
            PostProcess(Scan(t), IdRequest(v, limit), field)
  {
    var filter := Map(map["_id" := v]);
    var order := ScanOrder(t.Keys);
    forall k | k in order && Matches(t[k], filter) ensures k == key {
      IdMatches(t, v, k);
    }
    ScanForKey(t, order, filter, key);
    LookupRows(t, filter, key, limit);
  }

  lemma LookupRows(t: Coll, filter: Value, key: string, limit: int)
    ensures Filter(Passes(filter), Rows(t, Query(Some(key), limit))) ==
            if key in t && Matches(t[key], filter) then [t[key]] else []
  {
    var rows := Rows(t, Query(Some(key), limit));
    assert rows == if key in t then [t[key]] else [];
    if key in t {
      assert rows[1..] == [];
    }
  }

  /** The key lookup for an `_id` filter returns what a full scan returns, whatever the
      limit, exactly when no stored `_id` equals the value under another key. */
  lemma PushdownExact(t: Coll, v: Value, key: string)
    requires KeyInvariant(t) && !v.Map? && ValueKey(v) == Ok(key)
    ensures OnlyItsKey(t, v) <==>
            forall limit, field ::
              PostProcess(Rows(t, Query(Some(key), limit)), IdRequest(v, limit), field) ==
              PostProcess(Scan(t), IdRequest(v, limit), field)
  {
    if OnlyItsKey(t, v) {
      forall limit, field
        ensures PostProcess(Rows(t, Query(Some(key), limit)), IdRequest(v, limit), field) ==
                PostProcess(Scan(t), IdRequest(v, limit), field)
      {
        LookupIsScan(t, v, key, limit, field);
      }
    } else {
      var k :| k in t && ValueEquals(Lookup(t[k], "_id"), v) && k != key;
      IdMatches(t, v, k);
      ScanMisses(t, map["_id" := v], key, k);
      assert IdRequest(v, 0) == FindRequest(map["_id" := v], NO_OPTIONS);
    }
  }

  /** A document under another key is found by the scan and not by the lookup. */
  lemma ScanMisses(t: Coll, filter: Document, key: string, k: string)
    requires KeyInvariant(t)
    requires k in t && k != key && Matches(t[k], Map(filter))
    ensures var req := FindRequest(filter, NO_OPTIONS);
            PostProcess(Rows(t, Query(Some(key), 0)), req, "") != PostProcess(Scan(t), req, "")
  {
    var req := FindRequest(filter, NO_OPTIONS);
    var rows := Rows(t, Query(Some(key), 0));
    ScanFinds(t, filter, k);
    LookupFindsNot(t, filter, key, k);
    assert PostProcess(Scan(t), req, "") == Filter(Passes(Map(filter)), Scan(t));
    assert PostProcess(rows, req, "") == Filter(Passes(Map(filter)), rows);
  }

  lemma ScanFinds(t: Coll, filter: Document, k: string)
    requires k in t && Matches(t[k], Map(filter))
    ensures t[k] in Filter(Passes(Map(filter)), Scan(t))
  {
    hide Matches, DocsAt;
    InDocs(t, ScanOrder(t.Keys), k);
    FilterMembers(Passes(Map(filter)), Scan(t));
  }

  lemma InDocs(t: Coll, order: seq<string>, k: string)
    requires Enumerates(order, t.Keys) && k in t
    ensures t[k] in DocsAt(t, order)
  {
    var i :| 0 <= i < |order| && order[i] == k;
    assert DocsAt(t, order)[i] == t[k];
  }

  lemma LookupFindsNot(t: Coll, filter: Document, key: string, k: string)
    requires KeyInvariant(t) && k in t && k != key
    ensures t[k] !in Filter(Passes(Map(filter)), Rows(t, Query(Some(key), 0)))
  {
    assert DocumentIDKey(t[k]) == Ok(k);
    assert key in t ==> DocumentIDKey(t[key]) == Ok(key);
    FilterMembers(Passes(Map(filter)), Rows(t, Query(Some(key), 0)));
  }

  /** A table that holds the number one as two `_id`s of different types. */
  function IntAndLong(): Coll {
    map["int32:1" := map["_id" := Int32(1)], "int64:1" := map["_id" := Int64(1)]]
  }

  lemma IntAndLongKeys(t: Coll)
    requires t == IntAndLong()
    ensures KeyInvariant(t) && ScanOrder(t.Keys) == ["int32:1", "int64:1"]
  {
    hide StrLess, FormatInt;
    OneAsKey();
    IntBeforeLong();
    OrderOfTwo("int32:1", "int64:1");
    assert t.Keys == {"int32:1", "int64:1"};
  }

  lemma OneAsKey()
    ensures ValueKey(Int32(1)) == Ok("int32:1") && ValueKey(Int64(1)) == Ok("int64:1")
  {
    assert FormatInt(1) == "1";
    assert "int64:" + "1" == "int64:1" && "int32:" + "1" == "int32:1";
  }

  lemma OrderOfTwo(k: string, l: string)
    requires StrLess(k, l) && k != l
    ensures ScanOrder({k, l}) == [k, l]
  {
    StartsWithLeast({k, l}, k);
    assert {k, l} - {k} == {l};
    StartsWithLeast({l}, l);
    assert {l} - {l} == {};
  }

  lemma IntBeforeLong()
    ensures StrLess("int32:1", "int64:1") && "int32:1" != "int64:1"
  {
    var x, y := "int32:1", "int64:1";
    assert x[3] != y[3];
    assert x[0] == y[0] && x[1] == y[1] && x[2] == y[2];
    assert StrLess(x[3..], y[3..]);
    assert StrLess(x[2..], y[2..]) by { assert x[2..][1..] == x[3..] && y[2..][1..] == y[3..]; }
    assert StrLess(x[1..], y[1..]) by { assert x[1..][1..] == x[2..] && y[1..][1..] == y[2..]; }
  }

  /** The condition fails for numbers of different types: the lookup for `{_id: 1}` as
      int32 answers one of the two documents with which a scan answers. */
  lemma PushdownMissesOtherTypes(t: Coll, v: Value)
    requires t == IntAndLong() && v == Int32(1)
    ensures KeyInvariant(t) && ValueKey(v) == Ok("int32:1") && !OnlyItsKey(t, v)
    ensures PostProcess(Rows(t, Query(Some("int32:1"), 0)), IdRequest(v, 0), "") == [map["_id" := Int32(1)]]
    ensures PostProcess(Scan(t), IdRequest(v, 0), "") == [map["_id" := Int32(1)], map["_id" := Int64(1)]]
  {
    hide PostProcess, Rows, Scan, ScanOrder, FormatInt, Matches;
    IntAndLongKeys(t);
    OneAsKey();
    OneMatchesBoth(t, v);
    AnswersOfTwo(t, "int32:1", "int64:1", v);
    assert ValueEquals(Lookup(t["int64:1"], "_id"), v);
  }

  lemma AnswersOfTwo(t: Coll, k: string, l: string, v: Value)
    requires ScanOrder(t.Keys) == [k, l] && k in t && l in t
    requires Matches(t[k], Map(map["_id" := v])) && Matches(t[l], Map(map["_id" := v]))
    ensures PostProcess(Rows(t, Query(Some(k), 0)), IdRequest(v, 0), "") == [t[k]]
    ensures PostProcess(Scan(t), IdRequest(v, 0), "") == [t[k], t[l]]
  {
    var filter := Map(map["_id" := v]);
    assert Scan(t) == [t[k], t[l]];
    FilterAll(Passes(filter), Scan(t));
    LookupRows(t, filter, k, 0);
  }

  /** Either one as a query matches both documents. */
  lemma OneMatchesBoth(t: Coll, v: Value)
    requires t == IntAndLong() && v in {Int32(1), Int64(1)}
    ensures forall k :: k in t ==> Matches(t[k], Map(map["_id" := v]))
  {
    forall k | k in t ensures Matches(t[k], Map(map["_id" := v])) {
      MatchesId(t[k], v);
    }
  }

  // ----- one step -----

  /** The condition under which a find on TiDB may be answered by the key lookup. */
  ghost predicate FindSafe(t: Coll, req: FindRequest) {
    "_id" in req.filter && CanPushDown(req) ==> OnlyItsKey(t, req.filter["_id"])
  }

  lemma FindRefines(t: Coll, req: FindRequest, out: seq<Document>)
    requires KeyInvariant(t) && FindSafe(t, req)
    requires TidbFind(t, req, Ok(out))
    ensures MemFind(t, req, out)
  {
    var q := BuildFindSQL(req).value;
    var field :| FirstEntry(req.options.sort, field) && Ok(out) == Ok(PostProcess(Rows(t, q), req, field));
    assert PostProcess(Rows(t, q), req, field) == PostProcess(Scan(t), req, field) by {
      if !CanPushDown(req) {
        assert Rows(t, q) == Scan(t);
      } else {
        PushedFind(t, req, q, field);
      }
    }
    var order := ScanOrder(t.Keys);
    assert Enumerates(order, t.Keys);
    assert out == ApplyFindOptions(Filter(Passes(Map(req.filter)), DocsAt(t, order)), req.options, field);
  }

  lemma PushedFind(t: Coll, req: FindRequest, q: Query, field: string)
    requires KeyInvariant(t) && FindSafe(t, req)
    requires CanPushDown(req) && BuildFindSQL(req) == Ok(q)
    ensures PostProcess(Rows(t, q), req, field) == PostProcess(Scan(t), req, field)
  {
    var limit := req.options.limit;
    if "_id" in req.filter {
      var v := req.filter["_id"];
      OnlyEntry(req.filter, "_id");
      assert req == IdRequest(v, limit);
      LookupIsScan(t, v, q.key.get, limit, field);
    } else {
      assert req == FindRequest(map[], FindOptions(map[], map[], 0, limit));
      PushedLimitCommutes(t, limit, field);
    }
  }

  // ----- update -----

  /** The keys of the matching documents, in the order they are visited. */
  function MatchingKeys(c: Coll, order: seq<string>, filter: Document): seq<string>
    requires forall k :: k in order ==> k in c
  {
    if order == [] then []
    else
      var rest := MatchingKeys(c, order[1..], filter);
      if Matches(c[order[0]], Map(filter)) then [order[0]] + rest else rest
  }

  lemma {:induction false} MatchingKeysMatch(c: Coll, order: seq<string>, filter: Document)
    requires forall k :: k in order ==> k in c
    requires NoRepeats(order)
    ensures forall k :: k in MatchingKeys(c, order, filter) <==> k in order && Matches(c[k], Map(filter))
    ensures NoRepeats(MatchingKeys(c, order, filter))
    decreases |order|
  {
    if order != [] {
      var rest := order[1..];
      assert order == [order[0]] + rest;
      MatchingKeysMatch(c, rest, filter);
      assert order[0] !in rest;
      assert order[0] !in MatchingKeys(c, rest, filter);
    }
  }

  lemma {:induction false} MatchingKeysFilter(c: Coll, order: seq<string>, filter: Document)
    requires forall k :: k in order ==> k in c
    requires forall k :: k in MatchingKeys(c, order, filter) ==> k in c
    ensures Filter(Passes(Map(filter)), DocsAt(c, order)) == DocsAt(c, MatchingKeys(c, order, filter))
    decreases |order|
  {
    if order != [] {
      var rest, docs := order[1..], DocsAt(c, order);
      var restKeys := MatchingKeys(c, rest, filter);
      assert forall k :: k in restKeys ==> k in MatchingKeys(c, order, filter);
      MatchingKeysFilter(c, rest, filter);
      assert docs[0] == c[order[0]] && docs[1..] == DocsAt(c, rest);
      if Matches(c[order[0]], Map(filter)) {
        assert DocsAt(c, [order[0]] + restKeys) == [c[order[0]]] + DocsAt(c, restKeys);
      }
    }
  }

  /** The matches in key order are the matching keys in key order. */
  lemma {:induction false} MatchesInOrder(t: Coll, keys: set<string>, filter: Document)
    requires keys <= t.Keys
    ensures MatchingKeys(t, ScanOrder(keys), filter) == ScanOrder(keys * MatchSet(t, filter))
    decreases keys
  {
    var order, matched := ScanOrder(keys), MatchSet(t, filter);
    if keys == {} {
      assert keys * matched == {};
    } else {
      var k := order[0];
      assert k in order;
      MatchesInOrder(t, keys - {k}, filter);
      if k in matched {
        assert (keys - {k}) * matched == keys * matched - {k};
        StartsWithLeast(keys * matched, k);
      } else {
        assert (keys - {k}) * matched == keys * matched;
      }
    }
  }

  lemma AllMatchesInOrder(t: Coll, filter: Document)
    ensures MatchingKeys(t, ScanOrder(t.Keys), filter) == ScanOrder(MatchSet(t, filter))
  {
    MatchesInOrder(t, t.Keys, filter);
    assert t.Keys * MatchSet(t, filter) == MatchSet(t, filter);
  }

  lemma StartsWithLeast(keys: set<string>, k: string)
    requires Least(k, keys)
    ensures ScanOrder(keys) == [k] + ScanOrder(keys - {k})
  {
    LeastUnique(keys);
    assert ScanOrder(keys)[0] == k;
  }

  function Elements(s: seq<string>): set<string> {
    set k | k in s
  }

  lemma ElementCount(s: seq<string>)
    requires NoRepeats(s)
    ensures |Elements(s)| == |s|
  {
    DistinctCount(s);
  }

  /** Whatever the update makes of these documents keeps their keys. */
  ghost predicate KeepsKeys(c: Coll, keys: set<string>, u: Document) {
    forall k, doc :: k in keys && k in c && CanBecome(c[k], u, doc) ==> DocumentIDKey(doc) == Ok(k)
  }

  /** An update that never names `_id` keeps the key. */
  lemma KeyKept(doc: Document, u: Document, next: Document)
    requires IdSafe(u) && CanBecome(doc, u, next)
    requires DocumentIDKey(doc).Ok?
    ensures DocumentIDKey(next) == DocumentIDKey(doc)
  {
    var now :| Outcome(doc, u, now, next);
    assert Lookup(doc, "_id") != Null;
    UpdateKeepsId(doc, u, now, next);
    assert Field(doc, "_id") == Some(doc["_id"]) && Field(next, "_id") == Some(doc["_id"]);
  }

  /** The first REPLACE of a key-keeping update goes to the key it came from. */
  lemma FirstReplace(t: Coll, targets: seq<Document>, u: Document, next: Coll, k: string) returns (doc: Document)
    requires targets != [] && k in t && targets[0] == t[k] && KeepsKeys(t, {k}, u)
    requires ReplaceEach(t, targets, u, next, true)
    ensures CanBecome(targets[0], u, doc) && DocumentIDKey(doc) == Ok(k)
    ensures ReplaceEach(t[k := doc], targets[1..], u, next, true)
  {
    doc :|
      && CanBecome(targets[0], u, doc)
      && if DocumentIDKey(doc).Err? then next == t && !true
         else ReplaceEach(t[DocumentIDKey(doc).value := doc], targets[1..], u, next, true);
  }

  lemma RewriteOneMore(t: Coll, k: string, doc: Document, keys: set<string>, u: Document, next: Coll)
    requires k in t && k !in keys && CanBecome(t[k], u, doc)
    requires Rewrites(t[k := doc], keys, u, next)
    ensures Rewrites(t, keys + {k}, u, next)
  {
    var mid := t[k := doc];
    forall l | l in t ensures if l in keys + {k} then CanBecome(t[l], u, next[l]) else next[l] == t[l] {
      assert if l in keys then CanBecome(mid[l], u, next[l]) else next[l] == mid[l];
    }
  }

  lemma FirstOfKeys(t: Coll, keys: seq<string>)
    requires forall k :: k in keys ==> k in t
    requires NoRepeats(keys) && keys != []
    ensures DocsAt(t, keys)[0] == t[keys[0]] && DocsAt(t, keys)[1..] == DocsAt(t, keys[1..])
    ensures keys[0] !in keys[1..] && NoRepeats(keys[1..])
    ensures Elements(keys) == Elements(keys[1..]) + {keys[0]} && keys[0] !in Elements(keys[1..])
  {
    assert keys == [keys[0]] + keys[1..];
  }

  lemma KeepsRest(t: Coll, keys: seq<string>, u: Document, doc: Document)
    requires keys != [] && keys[0] !in keys[1..] && KeepsKeys(t, Elements(keys), u)
    ensures KeepsKeys(t, {keys[0]}, u)
    ensures KeepsKeys(t[keys[0] := doc], Elements(keys[1..]), u)
  {
    var next := t[keys[0] := doc];
    assert keys[0] in Elements(keys);
    forall k, later | k in Elements(keys[1..]) && k in next && CanBecome(next[k], u, later)
      ensures DocumentIDKey(later) == Ok(k)
    {
      assert next[k] == t[k] && k in Elements(keys);
    }
  }

  /** Replacing documents one by one, each under its own key, rewrites exactly them. */
  lemma {:induction false} ReplacesRewrite(t: Coll, keys: seq<string>, u: Document, next: Coll)
    requires forall k :: k in keys ==> k in t
    requires NoRepeats(keys) && KeepsKeys(t, Elements(keys), u)
    requires ReplaceEach(t, DocsAt(t, keys), u, next, true)
    ensures Rewrites(t, Elements(keys), u, next)
    decreases |keys|
  {
    var targets := DocsAt(t, keys);
    if keys == [] {
      assert targets == [];
    } else {
      var k, rest := keys[0], keys[1..];
      FirstOfKeys(t, keys);
      KeepsRest(t, keys, u, t[k]);
      var doc := FirstReplace(t, targets, u, next, k);
      KeepsRest(t, keys, u, doc);
      DocsAtElsewhere(t, rest, k, doc);
      ReplacesRewrite(t[k := doc], rest, u, next);
      RewriteOneMore(t, k, doc, Elements(rest), u, next);
    }
  }

  /** The documents an update touches, by key. */
  function TargetKeys(t: Coll, order: seq<string>, op: UpdateModel): seq<string>
    requires forall k :: k in order ==> k in t
  {
    var keys := MatchingKeys(t, order, op.filter);
    if op.multi then keys else Take(1, keys)
  }

  lemma TargetsByKey(t: Coll, order: seq<string>, op: UpdateModel)
    requires Enumerates(order, t.Keys)
    ensures var keys := TargetKeys(t, order, op);
            && (forall k :: k in keys ==> k in t)
            && NoRepeats(keys)
            && Targets(DocsAt(t, order), op) == DocsAt(t, keys)
            && (op.multi ==> Elements(keys) == MatchSet(t, op.filter) && |keys| == |MatchSet(t, op.filter)|)
            && (!op.multi && MatchSet(t, op.filter) != {} ==> |keys| == 1 && keys[0] in MatchSet(t, op.filter))
            && (MatchSet(t, op.filter) == {} ==> keys == [])
            && (MatchSet(t, op.filter) != {} ==> keys != [])
  {
    var all := MatchingKeys(t, order, op.filter);
    MatchingKeysMatch(t, order, op.filter);
    MatchingKeysFilter(t, order, op.filter);
    ElementCount(all);
    assert Elements(all) == MatchSet(t, op.filter);
    if MatchSet(t, op.filter) == {} {
      assert |all| == 0;
    } else {
      assert |all| > 0 && all[0] in all;
      if !op.multi {
        assert DocsAt(t, all)[..1] == DocsAt(t, all[..1]);
      }
    }
  }

  /** The keys an update writes when it runs on `t`. */
  function WriteKeys(t: Coll, op: UpdateModel): seq<string> {
    TargetKeys(t, ScanOrder(t.Keys), op)
  }

  /** The update keeps the keys of the documents it writes. */
  ghost predicate UpdateKeepsKeys(t: Coll, op: UpdateModel) {
    KeepsKeys(t, Elements(WriteKeys(t, op)), op.update)
  }

  lemma UpdateRefines(t: Coll, op: UpdateModel, next: Coll, r: UpdateResult)
    requires UpdateKeepsKeys(t, op)
    requires TidbUpdate(t, Scan(t), op, next, Ok(r))
    ensures MemUpdate(t, op, next, r)
  {
    var keys := WriteKeys(t, op);
    TargetsByKey(t, ScanOrder(t.Keys), op);
    assert |DocsAt(t, keys)| == |keys|;
    if keys != [] {
      ReplacesRewrite(t, keys, op.update, next);
      if op.multi {
        AllTargets(t, op, next, r);
      } else {
        OneTarget(t, op, keys[0], next, r);
      }
    }
  }

  lemma AllTargets(t: Coll, op: UpdateModel, next: Coll, r: UpdateResult)
    requires op.multi && MatchSet(t, op.filter) != {}
    requires Rewrites(t, MatchSet(t, op.filter), op.update, next)
    requires var n := |MatchSet(t, op.filter)|; r == UpdateResult(n, n, [])
    ensures MemUpdate(t, op, next, r)
  {
  }

  lemma OneTarget(t: Coll, op: UpdateModel, k: string, next: Coll, r: UpdateResult)
    requires !op.multi && k in MatchSet(t, op.filter)
    requires Rewrites(t, Elements([k]), op.update, next) && r == UpdateResult(1, 1, [])
    ensures MemUpdate(t, op, next, r)
  {
    assert Elements([k]) == {k};
  }

  // ----- delete -----

  /** Deleting documents one by one, each by its own key, removes exactly them. */
  lemma {:induction false} DeletesRemove(t: Coll, c: Coll, keys: seq<string>)
    requires KeyInvariant(c)
    requires forall k :: k in keys ==> k in c
    ensures DeleteEach(t, DocsAt(c, keys)) == Changed(t - Elements(keys), true)
    decreases |keys|
  {
    var docs := DocsAt(c, keys);
    if keys == [] {
      assert t - Elements(keys) == t;
    } else {
      assert docs[0] == c[keys[0]] && DocumentIDKey(docs[0]) == Ok(keys[0]);
      assert docs[1..] == DocsAt(c, keys[1..]);
      DeletesRemove(t - {keys[0]}, c, keys[1..]);
      assert keys == [keys[0]] + keys[1..];
      assert Elements(keys) == {keys[0]} + Elements(keys[1..]);
      assert t - {keys[0]} - Elements(keys[1..]) == t - Elements(keys);
    }
  }

  /** The documents a delete removes, by key. */
  function VictimKeys(t: Coll, order: seq<string>, op: DeleteModel): seq<string>
    requires forall k :: k in order ==> k in t
  {
    var keys := MatchingKeys(t, order, op.filter);
    if op.limit == 1 then Take(1, keys) else keys
  }

  lemma VictimsByKey(t: Coll, order: seq<string>, op: DeleteModel)
    requires Enumerates(order, t.Keys)
    ensures var keys := VictimKeys(t, order, op);
            && (forall k :: k in keys ==> k in t)
            && Victims(DocsAt(t, order), op) == DocsAt(t, keys)
            && (op.limit == 1 && MatchSet(t, op.filter) != {} ==> |keys| == 1 && keys[0] in MatchSet(t, op.filter))
            && (op.limit != 1 || MatchSet(t, op.filter) == {} ==>
                  Elements(keys) == MatchSet(t, op.filter) && |keys| == |MatchSet(t, op.filter)|)
  {
    var all := MatchingKeys(t, order, op.filter);
    MatchingKeysMatch(t, order, op.filter);
    MatchingKeysFilter(t, order, op.filter);
    ElementCount(all);
    assert Elements(all) == MatchSet(t, op.filter);
    if op.limit == 1 && all != [] {
      assert all[0] in all;
      assert DocsAt(t, all)[..1] == DocsAt(t, all[..1]);
    }
  }

  lemma DeleteRefines(t: Coll, op: DeleteModel)
    requires KeyInvariant(t)
    ensures var r := TidbDeletes(t, Scan(t), [op]);
            r.ok && MemDelete(t, op, r.coll, r.count)
  {
    var keys := VictimKeys(t, ScanOrder(t.Keys), op);
    VictimsByKey(t, ScanOrder(t.Keys), op);
    OneDelete(t, Scan(t), op, keys);
    DeleteOfKeys(t, op, keys);
  }

  lemma DeleteOfKeys(t: Coll, op: DeleteModel, keys: seq<string>)
    requires op.limit == 1 && MatchSet(t, op.filter) != {} ==> |keys| == 1 && keys[0] in MatchSet(t, op.filter)
    requires op.limit != 1 || MatchSet(t, op.filter) == {} ==>
               Elements(keys) == MatchSet(t, op.filter) && |keys| == |MatchSet(t, op.filter)|
    ensures MemDelete(t, op, t - Elements(keys), |keys|)
  {
    if op.limit == 1 && MatchSet(t, op.filter) != {} {
      assert Elements(keys) == {keys[0]};
    }
  }

  lemma OneDelete(t: Coll, snapshot: seq<Document>, op: DeleteModel, keys: seq<string>)
    requires KeyInvariant(t)
    requires forall k :: k in keys ==> k in t
    requires Victims(snapshot, op) == DocsAt(t, keys)
    ensures TidbDeletes(t, snapshot, [op]) == Removed(t - Elements(keys), true, |keys|)
  {
    DeletesRemove(t, t, keys);
    assert [op][1..] == [];
    assert |Victims(snapshot, op)| == |keys|;
    assert TidbDeletes(t - Elements(keys), snapshot, []) == Removed(t - Elements(keys), true, 0);
  }

  // ----- runs -----

  datatype Command =
    | InsertCommand(docs: seq<Document>)
    | FindCommand(req: FindRequest)
    | CountCommand(filter: Document)
    | UpdateCommand(update: UpdateModel)
    | DeleteCommand(delete: DeleteModel)

  datatype Reply =
    | InsertReply(inserted: nat)
    | FindReply(docs: seq<Document>)
    | CountReply(count: nat)
    | UpdateReply(result: UpdateResult)
    | DeleteReply(deleted: nat)

  /** A command that succeeds on the memory store. */
  ghost predicate MemStep(c: Coll, cmd: Command, next: Coll, reply: Reply, validator: Document) {
    match cmd
    case InsertCommand(docs) => InsertInto(c, docs, validator) == Changed(next, true) && reply == InsertReply(|docs|)
    case FindCommand(req) => next == c && reply.FindReply? && MemFind(c, req, reply.docs)
    case CountCommand(filter) => next == c && exists docs ::
      MemFind(c, FindRequest(filter, NO_OPTIONS), docs) && reply == CountReply(|docs|)
    case UpdateCommand(op) => reply.UpdateReply? && MemUpdate(c, op, next, reply.result)
    case DeleteCommand(op) => reply.DeleteReply? && MemDelete(c, op, next, reply.deleted)
  }

  /** A command that succeeds on the TiDB store. */
  ghost predicate TidbStep(t: Coll, cmd: Command, next: Coll, reply: Reply, validator: Document) {
    match cmd
    case InsertCommand(docs) => TidbInsert(t, docs, validator) == Changed(next, true) && reply == InsertReply(|docs|)
    case FindCommand(req) => next == t && reply.FindReply? && TidbFind(t, req, Ok(reply.docs))
    case CountCommand(filter) => next == t && exists docs ::
      TidbFind(t, FindRequest(filter, NO_OPTIONS), Ok(docs)) && reply == CountReply(|docs|)
    case UpdateCommand(op) => reply.UpdateReply? && TidbUpdate(t, Scan(t), op, next, Ok(reply.result))
    case DeleteCommand(op) => reply.DeleteReply? && TidbDeletes(t, Scan(t), [op]) == Removed(next, true, reply.deleted)
  }

  /** Updates keep the keys of the documents they change, and `_id` lookups meet no equal
      `_id` under another key. */
  ghost predicate Admissible(t: Coll, cmd: Command) {
    match cmd
    case FindCommand(req) => FindSafe(t, req)
    case CountCommand(filter) => FindSafe(t, FindRequest(filter, NO_OPTIONS))
    case UpdateCommand(op) => UpdateKeepsKeys(t, op)
    case _ => true
  }

  lemma StepRefines(t: Coll, cmd: Command, next: Coll, reply: Reply, validator: Document)
    requires KeyInvariant(t) && Admissible(t, cmd)
    requires TidbStep(t, cmd, next, reply, validator)
    ensures MemStep(t, cmd, next, reply, validator)
  {
    match cmd
    case InsertCommand(docs) =>
    case FindCommand(req) =>
      FindRefines(t, req, reply.docs);
    case CountCommand(filter) =>
      var req := FindRequest(filter, NO_OPTIONS);
      var docs :| TidbFind(t, req, Ok(docs)) && reply == CountReply(|docs|);
      FindRefines(t, req, docs);
    case UpdateCommand(op) =>
      UpdateRefines(t, op, next, reply.result);
    case DeleteCommand(op) =>
      DeleteRefines(t, op);
  }

  /** A run visits `states` one command at a time and collects the replies. */
  ghost predicate TidbRun(states: seq<Coll>, cmds: seq<Command>, replies: seq<Reply>, validator: Document) {
    && |states| == |cmds| + 1 && |replies| == |cmds|
    && forall i :: 0 <= i < |cmds| ==> TidbStep(states[i], cmds[i], states[i + 1], replies[i], validator)
  }

  ghost predicate MemRun(states: seq<Coll>, cmds: seq<Command>, replies: seq<Reply>, validator: Document) {
    && |states| == |cmds| + 1 && |replies| == |cmds|
    && forall i :: 0 <= i < |cmds| ==> MemStep(states[i], cmds[i], states[i + 1], replies[i], validator)
  }
}
