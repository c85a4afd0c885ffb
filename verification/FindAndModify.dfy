/** findAndModify: a find for one document, an update or a delete of one document with
    the same query, and for `new` a second find (internal/handler/handler.go:242-289). */
module FindAndModify {
  import opened Backends
  import opened Bson
  import opened Enumerations
  import opened Collections
  import Deletes
  import opened Keys
  import opened Matching
  import Paging
  import opened Queries
  import opened Refinement
  import StableSort
  import opened StoreLaws
  import opened Updates

  datatype Request = Request(query: Document, update: Document, remove: bool, upsert: bool, returnNew: bool)

  /** `value`, and `n` and `updatedExisting` of the last error object. */
  datatype Answer = Answer(value: Option<Document>, n: nat, updatedExisting: bool)

  function One(query: Document): FindRequest {
    FindRequest(query, FindOptions(map[], map[], 0, 1))
  }

  function First(docs: seq<Document>): Option<Document> {
    if docs == [] then None else Some(docs[0])
  }

  // ----- the protocol -----

  ghost predicate Protocol(memory: bool, c: Coll, r: Request, next: Coll, res: Result<Answer>) {
    exists found ::
      && Finds(memory, c, One(r.query), found)
      && if found.Err? then next == c && res.Err?
         else if r.remove then RemoveStep(memory, c, r, found.value, next, res)
         else ChangeStep(memory, c, r, found.value, next, res)
  }

  ghost predicate RemoveStep(memory: bool, c: Coll, r: Request, found: seq<Document>, next: Coll, res: Result<Answer>) {
    if found == [] then next == c && res == Ok(Answer(None, 0, false))
    else exists deleted ::
      && DeletesTo(memory, c, [DeleteModel(r.query, 1)], next, deleted)
      && if deleted.Err? then res.Err? else res == Ok(Answer(First(found), |found|, false))
  }

  ghost predicate ChangeStep(memory: bool, c: Coll, r: Request, found: seq<Document>, next: Coll, res: Result<Answer>) {
    if r.update == map[] then next == c && ReplyStep(memory, next, r, found, res)
    else exists updated ::
      && UpdatesTo(memory, c, [UpdateModel(r.query, r.update, false, r.upsert)], next, updated)
      && if updated.Err? then res.Err? else ReplyStep(memory, next, r, found, res)
  }

  ghost predicate ReplyStep(memory: bool, next: Coll, r: Request, found: seq<Document>, res: Result<Answer>) {
    if !r.returnNew then res == Ok(Answer(First(found), |found|, found != []))
    else exists after ::
      && Finds(memory, next, One(r.query), after)
      && if after.Err? then res.Err?
         else res == Ok(Answer(First(if after.value != [] then after.value else found), |found|, found != []))
  }

  method FindAndModify(b: Backend, ns: Namespace, r: Request, now: int) returns (res: Result<Answer>)
    modifies Objects(b)
    ensures OnlyThere(old(State(b)), Location(b, ns), State(b))
    ensures Protocol(b.Memory?, old(Contents(b, ns)), r, Contents(b, ns), res)
  {
    var found := Find(b, ns, One(r.query));
    if found.Err? {
      return Err(found.error);
    }
    if r.remove {
      res := Remove(b, ns, r, found.value);
    } else {
      res := Change(b, ns, r, found.value, now);
    }
  }

  method Remove(b: Backend, ns: Namespace, r: Request, found: seq<Document>) returns (res: Result<Answer>)
    modifies Objects(b)
    ensures OnlyThere(old(State(b)), Location(b, ns), State(b))
    ensures RemoveStep(b.Memory?, old(Contents(b, ns)), r, found, Contents(b, ns), res)
  {
    if found != [] {
      var deleted := Delete(b, ns, [DeleteModel(r.query, 1)]);
      if deleted.Err? {
        return Err(deleted.error);
      }
    }
    res := Ok(Answer(First(found), |found|, false));
  }

  method Change(b: Backend, ns: Namespace, r: Request, found: seq<Document>, now: int) returns (res: Result<Answer>)
    modifies Objects(b)
    ensures OnlyThere(old(State(b)), Location(b, ns), State(b))
    ensures ChangeStep(b.Memory?, old(Contents(b, ns)), r, found, Contents(b, ns), res)
  {
    if r.update != map[] {
      var updated := Update(b, ns, [UpdateModel(r.query, r.update, false, r.upsert)], now);
      if updated.Err? {
        return Err(updated.error);
      }
    }
    res := Reply(b, ns, r, found);
  }

  method Reply(b: Backend, ns: Namespace, r: Request, found: seq<Document>) returns (res: Result<Answer>)
    modifies Objects(b)
    ensures OnlyThere(old(State(b)), Location(b, ns), State(b)) && Contents(b, ns) == old(Contents(b, ns))
    ensures ReplyStep(b.Memory?, Contents(b, ns), r, found, res)
  {
    var value := First(found);
    if r.returnNew {
      var after := Find(b, ns, One(r.query));
      if after.Err? {
        return Err(after.error);
      }
      if after.value != [] {
        value := First(after.value);
      }
    }
    res := Ok(Answer(value, |found|, found != []));
  }

  lemma FoundFirst(memory: bool, c: Coll, r: Request, next: Coll, res: Result<Answer>) returns (found: seq<Document>)
    requires Protocol(memory, c, r, next, res) && res.Ok?
    ensures Finds(memory, c, One(r.query), Ok(found))
    ensures if r.remove then RemoveStep(memory, c, r, found, next, res) else ChangeStep(memory, c, r, found, next, res)
  {
    hide RemoveStep, ChangeStep, Finds;
    var f :|
      && Finds(memory, c, One(r.query), f)
      && if f.Err? then next == c && res.Err?
         else if r.remove then RemoveStep(memory, c, r, f.value, next, res)
         else ChangeStep(memory, c, r, f.value, next, res);
    found := f.value;
  }

  // ----- on TiDB: what the find finds -----

  /** The find looks a key up. */
  predicate LooksUp(query: Document) {
    CanPushDownFilter(query) && "_id" in query
  }

  /** The find is refused, because the `_id` of the query has no key. */
  predicate Refuses(query: Document) {
    LooksUp(query) && ValueKey(query["_id"]).Err?
  }

  /** The least of some keys. */
  function LeastKey(keys: set<string>): (k: string)
    requires keys != {}
    ensures Least(k, keys)
  {
    ScanOrder(keys)[0]
  }

  /** The key of the document that a find for one document answers: the key looked up, if
      its document matches, and without a lookup the least match. */
  function FoundKey(t: Coll, query: Document): (k: Option<string>)
    ensures k.Some? ==> k.get in MatchSet(t, query)
  {
    if LooksUp(query) then
      var key := ValueKey(query["_id"]);
      if key.Ok? && key.value in MatchSet(t, query) then Some(key.value) else None
    else if MatchSet(t, query) == {} then None
    else Some(LeastKey(MatchSet(t, query)))
  }

  function DocumentsAt(t: Coll, k: Option<string>): seq<Document>
    requires k.Some? ==> k.get in t
  {
    if k.Some? then [t[k.get]] else []
  }

  lemma TidbFinds(t: Coll, query: Document, found: Result<seq<Document>>)
    ensures TidbFind(t, One(query), found) <==>
            if Refuses(query) then found.Err? else found == Ok(DocumentsAt(t, FoundKey(t, query)))
  {
    hide FoundKey;
    var req := One(query);
    if !Refuses(query) {
      var q := BuildFindSQL(req).value;
      forall field ensures PostProcess(Rows(t, q), req, field) == DocumentsAt(t, FoundKey(t, query)) {
        if LooksUp(query) {
          LookedUp(t, query, q.key.get, field);
        } else {
          Scanned(t, query, q, field);
        }
      }
      assert FirstEntry(req.options.sort, "");
    }
  }

  lemma LookedUp(t: Coll, query: Document, key: string, field: string)
    requires LooksUp(query) && ValueKey(query["_id"]) == Ok(key)
    ensures PostProcess(Rows(t, Query(Some(key), 1)), One(query), field) == DocumentsAt(t, FoundKey(t, query))
  {
    hide Rows;
    LookupRows(t, Map(query), key, 1);
  }

  lemma Scanned(t: Coll, query: Document, q: Query, field: string)
    requires !LooksUp(query) && BuildFindSQL(One(query)) == Ok(q)
    ensures PostProcess(Rows(t, q), One(query), field) == DocumentsAt(t, FoundKey(t, query))
  {
    hide ScanOrder;
    if query == map[] {
      PushedLimitCommutes(t, 1, field);
    }
    assert PostProcess(Rows(t, q), One(query), field) == PostProcess(Scan(t), One(query), field);
    MatchesOfScan(t, query);
    PageOfOne(t, ScanOrder(MatchSet(t, query)));
  }

  lemma MatchesOfScan(t: Coll, query: Document)
    ensures StableSort.Filter(Passes(Map(query)), Scan(t)) == DocsAt(t, ScanOrder(MatchSet(t, query)))
  {
    AllMatchesInOrder(t, query);
    MatchingKeysFilter(t, ScanOrder(t.Keys), query);
  }

  lemma PageOfOne(t: Coll, keys: seq<string>)
    requires forall k :: k in keys ==> k in t
    ensures keys != [] ==> keys[0] in keys
    ensures Page(DocsAt(t, keys), 0, 1) == if keys == [] then [] else [t[keys[0]]]
  {
    assert keys != [] ==> keys[0] in keys;
    assert |DocsAt(t, keys)| == |keys|;
  }

  /** A find that may be answered by the lookup finds the least match, if there is one. */
  lemma SafeFindsLeast(t: Coll, query: Document)
    requires KeyInvariant(t) && FindSafe(t, One(query)) && MatchSet(t, query) != {}
    ensures FoundKey(t, query) == Some(LeastKey(MatchSet(t, query)))
  {
    if LooksUp(query) {
      var v := query["_id"];
      OnlyEntry(query, "_id");
      forall k | k in MatchSet(t, query) ensures Ok(k) == ValueKey(v) {
        IdMatches(t, v, k);
      }
      assert Ok(LeastKey(MatchSet(t, query))) == ValueKey(v);
    }
  }

  // ----- on TiDB: what the handler does -----

  lemma FoundAtStart(t: Coll, r: Request, next: Coll, res: Result<Answer>) returns (found: seq<Document>)
    requires Protocol(false, t, r, next, res) && res.Ok?
    ensures !Refuses(r.query) && found == DocumentsAt(t, FoundKey(t, r.query))
    ensures if r.remove then RemoveStep(false, t, r, found, next, res) else ChangeStep(false, t, r, found, next, res)
  {
    hide FoundKey;
    found := FoundFirst(false, t, r, next, res);
    TidbFinds(t, r.query, Ok(found));
  }

  lemma OneTidbUpdate(t: Coll, op: UpdateModel, next: Coll, res: Result<UpdateResult>) returns (r: Result<UpdateResult>)
    requires TidbUpdates(t, Scan(t), [op], next, res)
    ensures TidbUpdate(t, Scan(t), op, next, r) && (r.Ok? <==> res.Ok?)
  {
    var snapshot := Scan(t);
    var mid;
    assert [op][1..] == [];
    mid, r :|
      && TidbUpdate(t, snapshot, [op][0], mid, r)
      && if r.Err? then next == mid && res == r
         else exists rest ::
           && TidbUpdates(mid, snapshot, [op][1..], next, rest)
           && res == Chain(r.value, rest);
  }

  lemma FirstTarget(t: Coll, op: UpdateModel)
    requires !op.multi && MatchSet(t, op.filter) != {}
    ensures Targets(Scan(t), op) == [t[LeastKey(MatchSet(t, op.filter))]]
  {
    hide ScanOrder;
    MatchesOfScan(t, op.filter);
    PageOfOne(t, ScanOrder(MatchSet(t, op.filter)));
  }

  /** The update changes the least match, and nothing else. */
  lemma TidbChanges(t: Coll, op: UpdateModel, next: Coll, res: Result<UpdateResult>) returns (doc: Document)
    requires !op.multi && MatchSet(t, op.filter) != {}
    requires KeepsKeys(t, {LeastKey(MatchSet(t, op.filter))}, op.update)
    requires TidbUpdates(t, Scan(t), [op], next, res) && res.Ok?
    ensures var k := LeastKey(MatchSet(t, op.filter));
            CanBecome(t[k], op.update, doc) && DocumentIDKey(doc) == Ok(k) && next == t[k := doc]
  {
    hide TidbUpdates, Targets, Scan, CanBecome, LeastKey;
    var r := OneTidbUpdate(t, op, next, res);
    var k := LeastKey(MatchSet(t, op.filter));
    FirstTarget(t, op);
    doc := FirstReplace(t, [t[k]], op.update, next, k);
    assert [t[k]][1..] == [];
  }

  /** The answer: the document found at first, or with `new` the one found afterwards. */
  function Shown(t: Coll, next: Coll, r: Request): Answer {
    var before, after := FoundKey(t, r.query), FoundKey(next, r.query);
    var was := if before.Some? then Some(t[before.get]) else None;
    Answer(
      if r.returnNew && after.Some? then Some(next[after.get]) else was,
      if before.Some? then 1 else 0,
      before.Some?)
  }

  /** The update changes the least match, and the answer is what the finds find. */
  lemma TidbAnswers(t: Coll, r: Request, next: Coll, res: Result<Answer>) returns (doc: Document)
    requires !r.remove && r.update != map[] && MatchSet(t, r.query) != {}
    requires KeepsKeys(t, {LeastKey(MatchSet(t, r.query))}, r.update)
    requires Protocol(false, t, r, next, res) && res.Ok?
    ensures var k := LeastKey(MatchSet(t, r.query)); CanBecome(t[k], r.update, doc) && next == t[k := doc]
    ensures res.value == Shown(t, next, r)
  {
    hide FoundKey, LeastKey, KeepsKeys, CanBecome, TidbFind, TidbUpdates;
    var found := FoundAtStart(t, r, next, res);
    var updated := UpdateOfChange(false, t, r, found, next, res);
    doc := TidbChanges(t, UpdateModel(r.query, r.update, false, r.upsert), next, updated);
    if r.returnNew {
      var after := FindOfReply(false, next, r, found, res);
      TidbFinds(next, r.query, after);
    }
  }

  /** When nothing matches, the update inserts its document if it upserts, and changes
      nothing otherwise; the first find has found nothing. */
  lemma TidbUpserts(t: Coll, r: Request, next: Coll, res: Result<Answer>)
    requires !r.remove && r.update != map[] && MatchSet(t, r.query) == {}
    requires Protocol(false, t, r, next, res) && res.Ok?
    ensures if r.upsert then exists done :: Upserts(t, UpdateModel(r.query, r.update, false, true), next, done)
            else next == t
    ensures res.value == Shown(t, next, r) && res.value.n == 0
  {
    hide FoundKey, TidbFind, TidbUpdates, Upserts;
    var found := FoundAtStart(t, r, next, res);
    var updated := UpdateOfChange(false, t, r, found, next, res);
    var op := UpdateModel(r.query, r.update, false, r.upsert);
    var done := OneTidbUpdate(t, op, next, updated);
    NoTargets(t, op);
    assert TidbUpdate(t, Scan(t), op, next, done);
    if r.returnNew {
      var after := FindOfReply(false, next, r, found, res);
      TidbFinds(next, r.query, after);
    }
  }

  lemma NoTargets(t: Coll, op: UpdateModel)
    requires MatchSet(t, op.filter) == {}
    ensures Targets(Scan(t), op) == []
  {
    MatchesOfScan(t, op.filter);
  }

  /** What the reply to `new` shows when the least match became `doc`: that document if it
      still matches the query; otherwise the next match, if the find is not a lookup; and
      failing that the document as it was. */
  function NewValue(t: Coll, query: Document, doc: Document): Document
    requires MatchSet(t, query) != {}
  {
    var k := LeastKey(MatchSet(t, query));
    var others := MatchSet(t, query) - {k};
    if Matches(doc, Map(query)) then doc
    else if !LooksUp(query) && others != {} then t[LeastKey(others)]
    else t[k]
  }

  lemma FoundAfter(t: Coll, query: Document, k: string, doc: Document)
    requires FoundKey(t, query) == Some(k) && k == LeastKey(MatchSet(t, query))
    ensures var after, next := FoundKey(t[k := doc], query), t[k := doc];
            NewValue(t, query, doc) == if after.Some? then next[after.get] else t[k]
  {
    hide Matches, ScanOrder;
    var next, matched := t[k := doc], MatchSet(t, query);
    assert forall l :: l in t && l != k ==> next[l] == t[l];
    assert MatchSet(next, query) == matched - {k} + if Matches(doc, Map(query)) then {k} else {};
    if !LooksUp(query) {
      if Matches(doc, Map(query)) {
        assert MatchSet(next, query) == matched;
      } else if matched - {k} != {} {
        assert MatchSet(next, query) == matched - {k};
        assert LeastKey(matched - {k}) in matched - {k};
      }
    }
  }

  /** The update changes the document under `k`, and the answer is that document, or with
      `new` the `NewValue`. */
  ghost predicate ChangesAndShows(t: Coll, r: Request, k: string, next: Coll, res: Result<Answer>)
    requires k in MatchSet(t, r.query)
  {
    exists doc ::
      && CanBecome(t[k], r.update, doc) && next == t[k := doc]
      && res == Ok(Answer(Some(if r.returnNew then NewValue(t, r.query, doc) else t[k]), 1, true))
  }

  /** When the find finds the least match, the document returned is the one that the
      update changes.  With `new` the reply is `NewValue`. */
  lemma TidbCoherent(t: Coll, r: Request, next: Coll, res: Result<Answer>)
    requires !r.remove && r.update != map[] && MatchSet(t, r.query) != {}
    requires FoundKey(t, r.query) == Some(LeastKey(MatchSet(t, r.query)))
    requires KeepsKeys(t, {LeastKey(MatchSet(t, r.query))}, r.update)
    requires Protocol(false, t, r, next, res) && res.Ok?
    ensures ChangesAndShows(t, r, LeastKey(MatchSet(t, r.query)), next, res)
  {
    hide Protocol, KeepsKeys, CanBecome, FoundKey, LeastKey, NewValue;
    var k := LeastKey(MatchSet(t, r.query));
    var doc := TidbAnswers(t, r, next, res);
    FoundAfter(t, r.query, k, doc);
  }

  /** With `remove` the answer is the document found, and the one removed is the least
      match. */
  lemma TidbRemoves(t: Coll, r: Request, next: Coll, res: Result<Answer>)
    requires KeyInvariant(t) && r.remove && Protocol(false, t, r, next, res) && res.Ok?
    ensures var k := FoundKey(t, r.query);
            if k.None? then next == t && res.value == Answer(None, 0, false)
            else next == t - {LeastKey(MatchSet(t, r.query))} && res.value == Answer(Some(t[k.get]), 1, false)
  {
    hide FoundKey, LeastKey, TidbDeletes;
    var found := FoundAtStart(t, r, next, res);
    if FoundKey(t, r.query).Some? {
      TidbDeletesFirst(t, r.query);
    }
  }

  lemma TidbDeletesFirst(t: Coll, query: Document)
    requires KeyInvariant(t) && MatchSet(t, query) != {}
    ensures TidbDeletes(t, Scan(t), [DeleteModel(query, 1)]) == Removed(t - {LeastKey(MatchSet(t, query))}, true, 1)
  {
    hide TidbDeletes, Victims, Scan, LeastKey;
    var k := LeastKey(MatchSet(t, query));
    FirstVictim(t, query);
    OneDelete(t, Scan(t), DeleteModel(query, 1), [k]);
    assert Elements([k]) == {k};
  }

  lemma FirstVictim(t: Coll, query: Document)
    requires MatchSet(t, query) != {}
    ensures Victims(Scan(t), DeleteModel(query, 1)) == DocsAt(t, [LeastKey(MatchSet(t, query))])
  {
    hide ScanOrder;
    MatchesOfScan(t, query);
    PageOfOne(t, ScanOrder(MatchSet(t, query)));
    assert DocsAt(t, [LeastKey(MatchSet(t, query))]) == [t[LeastKey(MatchSet(t, query))]];
  }

  lemma UpdateOfChange(memory: bool, t: Coll, r: Request, found: seq<Document>, next: Coll, res: Result<Answer>)
    returns (updated: Result<UpdateResult>)
    requires ChangeStep(memory, t, r, found, next, res) && r.update != map[] && res.Ok?
    ensures updated.Ok? && UpdatesTo(memory, t, [UpdateModel(r.query, r.update, false, r.upsert)], next, updated)
    ensures ReplyStep(memory, next, r, found, res)
  {
    updated :|
      && UpdatesTo(memory, t, [UpdateModel(r.query, r.update, false, r.upsert)], next, updated)
      && if updated.Err? then res.Err? else ReplyStep(memory, next, r, found, res);
  }

  lemma FindOfReply(memory: bool, next: Coll, r: Request, found: seq<Document>, res: Result<Answer>)
    returns (after: Result<seq<Document>>)
    requires ReplyStep(memory, next, r, found, res) && r.returnNew && res.Ok?
    ensures Finds(memory, next, One(r.query), after) && after.Ok?
    ensures res.value == Answer(First(if after.value != [] then after.value else found), |found|, found != [])
  {
    after :|
      && Finds(memory, next, One(r.query), after)
      && if after.Err? then res.Err?
         else res == Ok(Answer(First(if after.value != [] then after.value else found), |found|, found != []));
  }

  // ----- on the memory store -----

  /** When at most one document matches, the map order cannot be seen. */
  lemma MemoryFound(c: Coll, query: Document, k: string, out: seq<Document>)
    requires MatchSet(c, query) <= {k} && MemFind(c, One(query), out)
    ensures out == if k in MatchSet(c, query) then [c[k]] else []
  {
    var req := One(query);
    var order, field :|
      && Enumerates(order, c.Keys)
      && FirstEntry(req.options.sort, field)
      && out == ApplyFindOptions(StableSort.Filter(Passes(Map(req.filter)), DocsAt(c, order)), req.options, field);
    forall l | l in order && Matches(c[l], Map(query)) ensures l == k {
      assert l in MatchSet(c, query);
    }
    ScanForKey(c, order, Map(query), k);
  }

  lemma MemoryChanges(c: Coll, op: UpdateModel, k: string, next: Coll, res: Result<UpdateResult>)
    requires MatchSet(c, op.filter) == {k} && !op.multi
    requires MemUpdates(c, [op], next, res) && res.Ok?
    ensures k in c && k in next && CanBecome(c[k], op.update, next[k]) && next == c[k := next[k]]
  {
    var r := TheUpdate(c, op, next, res);
    OnlyMatchRewritten(c, op, k, next, r);
    OneRewritten(c, k, op.update, next);
  }

  lemma FoundInMemory(c: Coll, r: Request, k: string, next: Coll, res: Result<Answer>)
    requires MatchSet(c, r.query) == {k} && Protocol(true, c, r, next, res) && res.Ok?
    ensures k in c
    ensures if r.remove then RemoveStep(true, c, r, [c[k]], next, res) else ChangeStep(true, c, r, [c[k]], next, res)
  {
    assert k in MatchSet(c, r.query);
    var found := FoundFirst(true, c, r, next, res);
    MemoryFound(c, r.query, k, found);
  }

  /** With one matching document the memory store returns the one it changes, and with
      `new` what it became if that still matches. */
  lemma MemoryCoherent(c: Coll, r: Request, k: string, next: Coll, res: Result<Answer>)
    requires MatchSet(c, r.query) == {k} && !r.remove && r.update != map[]
    requires Protocol(true, c, r, next, res) && res.Ok?
    ensures k in c && k in next && CanBecome(c[k], r.update, next[k]) && next == c[k := next[k]]
    ensures var shown := if r.returnNew && Matches(next[k], Map(r.query)) then next[k] else c[k];
            res.value == Answer(Some(shown), 1, true)
  {
    FoundInMemory(c, r, k, next, res);
    var updated := UpdateOfChange(true, c, r, [c[k]], next, res);
    MemoryChanges(c, UpdateModel(r.query, r.update, false, r.upsert), k, next, updated);
    if r.returnNew {
      var after := FindOfReply(true, next, r, [c[k]], res);
      OnlyMatchAfter(c, r.query, k, next[k]);
      MemoryFound(next, r.query, k, after.value);
    }
  }

  lemma OnlyMatchAfter(c: Coll, query: Document, k: string, doc: Document)
    requires MatchSet(c, query) == {k} && k in c
    ensures MatchSet(c[k := doc], query) == if Matches(doc, Map(query)) then {k} else {}
  {
    var next := c[k := doc];
    forall l | l in next && l != k ensures !Matches(next[l], Map(query)) {
      assert next[l] == c[l] && l !in MatchSet(c, query);
    }
  }

  function RemoveOne(query: Document): Request {
    Request(query, map[], true, false, false)
  }

  function RemovedAnswer(doc: Document): Result<Answer> {
    Ok(Answer(Some(doc), 1, false))
  }

  /** Whatever the map order, the document returned is the one removed. */
  ghost predicate RemovesWhatItReturns(memory: bool, c: Coll, query: Document) {
    forall next, doc :: Protocol(memory, c, RemoveOne(query), next, RemovedAnswer(doc)) ==> TookOut(c, doc, next)
  }

  /** `next` is `c` without one entry for `doc`. */
  ghost predicate TookOut(c: Coll, doc: Document, next: Coll) {
    exists k :: k in c && c[k] == doc && next == c - {k}
  }

  /** On the memory store the find and the delete each pick by their own map order: they
      pick the same document for sure exactly when at most one matches. */
  lemma MemoryRemoves(c: Coll, query: Document)
    requires KeyInvariant(c)
    ensures RemovesWhatItReturns(true, c, query) <==> |MatchSet(c, query)| <= 1
  {
    var matched := MatchSet(c, query);
    if |matched| <= 1 {
      forall next, doc | Protocol(true, c, RemoveOne(query), next, RemovedAnswer(doc)) ensures TookOut(c, doc, next) {
        RemovedOnly(c, query, next, doc);
      }
    } else {
      var k, l := TwoMatches(matched);
      RemovesAnother(c, query, k, l);
    }
  }

  lemma TwoMatches(matched: set<string>) returns (k: string, l: string)
    requires |matched| > 1
    ensures k in matched && l in matched && k != l
  {
    k :| k in matched;
    var others := matched - {k};
    assert |others| > 0;
    l :| l in others;
  }

  lemma RemovedOnly(c: Coll, query: Document, next: Coll, doc: Document)
    requires |MatchSet(c, query)| <= 1
    requires Protocol(true, c, RemoveOne(query), next, RemovedAnswer(doc))
    ensures TookOut(c, doc, next)
  {
    var found := FoundFirst(true, c, RemoveOne(query), next, RemovedAnswer(doc));
    if k :| k in MatchSet(c, query) {
      assert |MatchSet(c, query) - {k}| == 0;
      assert MatchSet(c, query) == {k};
      MemoryFound(c, query, k, found);
      OneMemDelete(c, DeleteModel(query, 1), k, next, RemovedAnswer(doc));
    } else {
      MemoryFound(c, query, "", found);
    }
  }

  lemma OneMemDelete(c: Coll, op: DeleteModel, k: string, next: Coll, res: Result<Answer>)
    requires MatchSet(c, op.filter) == {k} && op == DeleteModel(op.filter, 1) && k in c
    requires RemoveStep(true, c, RemoveOne(op.filter), [c[k]], next, res)
    ensures next == c - {k} && res == Ok(Answer(Some(c[k]), 1, false))
  {
    var found := [c[k]];
    var deleted :|
      && DeletesTo(true, c, [op], next, deleted)
      && if deleted.Err? then res.Err? else res == Ok(Answer(First(found), |found|, false));
    var mid, m, rest := Deletes.FirstDelete(c, [op], next, deleted.value);
    assert [op][1..] == [];
    assert k in MatchSet(c, op.filter);
  }

  lemma RemovedElsewhere(t: Coll, k: string, l: string)
    requires KeyInvariant(t) && k in t && l in t && k != l
    ensures !TookOut(t, t[k], t - {l})
  {
    forall m | m in t && t[m] == t[k] ensures t - {m} != t - {l} {
      assert DocumentIDKey(t[m]) == Ok(m) && DocumentIDKey(t[k]) == Ok(k);
      assert l in t - {m};
    }
  }

  /** Two matches: the find meets one first, the delete the other. */
  lemma RemovesAnother(c: Coll, query: Document, k: string, l: string)
    requires KeyInvariant(c) && k in MatchSet(c, query) && l in MatchSet(c, query) && k != l
    ensures !RemovesWhatItReturns(true, c, query)
  {
    AnswersAnother(c, query, k, l);
    RemovedElsewhere(c, k, l);
  }

  lemma AnswersAnother(c: Coll, query: Document, k: string, l: string)
    requires k in MatchSet(c, query) && l in MatchSet(c, query) && k != l
    ensures Protocol(true, c, RemoveOne(query), c - {l}, RemovedAnswer(c[k]))
  {
    var r, found := RemoveOne(query), [c[k]];
    MetFirst(c, query, k, l);
    DeletedFirst(c, query, l);
    var deleted: Result<nat> := Ok(1);
    assert DeletesTo(true, c, [DeleteModel(r.query, 1)], c - {l}, deleted);
    assert RemoveStep(true, c, r, found, c - {l}, RemovedAnswer(c[k]));
    var f: Result<seq<Document>> := Ok(found);
    assert Finds(true, c, One(r.query), f) && f.value == found;
  }

  lemma MetFirst(c: Coll, query: Document, k: string, l: string)
    requires k in MatchSet(c, query) && l in MatchSet(c, query) && k != l
    ensures MemFind(c, One(query), [c[k]])
  {
    var rest := Paging.TwoFirst(c, k, l, query);
    var req, order := One(query), [k, l] + rest;
    var docs := StableSort.Filter(Passes(Map(query)), DocsAt(c, order));
    assert Page(docs, 0, 1) == [c[k]];
    assert FirstEntry(req.options.sort, "");
    assert [c[k]] == ApplyFindOptions(StableSort.Filter(Passes(Map(req.filter)), DocsAt(c, order)), req.options, "");
  }

  lemma DeletedFirst(c: Coll, query: Document, l: string)
    requires l in MatchSet(c, query)
    ensures MemDeletes(c, [DeleteModel(query, 1)], c - {l}, 1)
  {
    var ops, one: nat, none: nat := [DeleteModel(query, 1)], 1, 0;
    assert MemDelete(c, ops[0], c - {l}, one);
    assert ops[1..] == [];
    assert MemDeletes(c - {l}, ops[1..], c - {l}, none);
    assert one == one + none;
  }
}
