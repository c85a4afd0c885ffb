/** Whether findAndModify returns the document that it changes: when the find and the
    update can pick different documents (internal/handler/handler.go:242-289). */
module Coherence {
  import opened Backends
  import opened Bson
  import opened Collections
  import opened Enumerations
  import opened FindAndModify
  import opened Keys
  import opened Matching
  import opened Queries
  import opened Refinement
  import opened SingleRequests
  import StableSort
  import opened StoreLaws
  import opened Updates

  /** An update that asks for the document as it was. */
  function ChangeOne(query: Document, u: Document, upsert: bool): Request {
    Request(query, u, false, upsert, false)
  }

  function UpdateOf(r: Request): UpdateModel {
    UpdateModel(r.query, r.update, false, r.upsert)
  }

  /** No document but the returned one has changed. */
  ghost predicate OnlyReturned(c: Coll, returned: Option<Document>, next: Coll) {
    returned.Some? && exists k :: k in c && c[k] == returned.get && SameElsewhere(c, k, next)
  }

  ghost predicate SameElsewhere(c: Coll, k: string, next: Coll) {
    next.Keys == c.Keys && forall l :: l in c && l != k ==> next[l] == c[l]
  }

  /** Whatever the map orders, a request that finds a match returns what it changes. */
  ghost predicate Coherent(memory: bool, c: Coll, r: Request) {
    forall next, answer ::
      Protocol(memory, c, r, next, Ok(answer)) && MatchSet(c, r.query) != {} ==> OnlyReturned(c, answer.value, next)
  }

  /** The update leaves the document as it is. */
  ghost predicate Idle(doc: Document, u: Document) {
    forall next :: CanBecome(doc, u, next) ==> next == doc
  }

  /** Under its own key a document is the only one of its kind. */
  lemma OtherChanged(c: Coll, k: string, l: string, doc: Document)
    requires KeyInvariant(c) && k in c && l in c && k != l && doc != c[l]
    ensures !OnlyReturned(c, Some(c[k]), c[l := doc])
  {
    assert DocumentIDKey(c[k]) == Ok(k);
    forall m | m in c && c[m] == c[k] ensures !SameElsewhere(c, m, c[l := doc]) {
      assert DocumentIDKey(c[m]) == Ok(m);
      assert c[l := doc][l] != c[l];
    }
  }

  // ----- on the memory store -----

  /** The find returns one of the matches. */
  lemma FindsAMatch(c: Coll, query: Document, out: seq<Document>) returns (k: string)
    requires MatchSet(c, query) != {} && MemFind(c, One(query), out)
    ensures k in MatchSet(c, query) && out == [c[k]]
  {
    var req := One(query);
    var order, field :|
      && Enumerates(order, c.Keys)
      && FirstEntry(req.options.sort, field)
      && out == ApplyFindOptions(StableSort.Filter(Passes(Map(req.filter)), DocsAt(c, order)), req.options, field);
    var keys := MatchingKeys(c, order, query);
    MatchingKeysMatch(c, order, query);
    MatchingKeysFilter(c, order, query);
    var l :| l in MatchSet(c, query);
    assert l in keys;
    k := keys[0];
    assert k in keys;
    assert Page(DocsAt(c, keys), 0, 1) == [c[k]];
  }

  lemma FoundByChange(c: Coll, r: Request, next: Coll, answer: Answer) returns (k: string)
    requires !r.remove && !r.returnNew && r.update != map[]
    requires Protocol(true, c, r, next, Ok(answer)) && MatchSet(c, r.query) != {}
    ensures k in MatchSet(c, r.query) && answer == Answer(Some(c[k]), 1, true)
    ensures ChangeStep(true, c, r, [c[k]], next, Ok(answer))
  {
    var found := FoundFirst(true, c, r, next, Ok(answer));
    k := FindsAMatch(c, r.query, found);
    var updated := UpdateOfChange(true, c, r, found, next, Ok(answer));
  }

  /** What a change in memory does: the find picks `k`, the update picks `l`. */
  lemma PicksTwice(c: Coll, r: Request, next: Coll, answer: Answer) returns (k: string, l: string)
    requires !r.remove && !r.returnNew && r.update != map[]
    requires Protocol(true, c, r, next, Ok(answer)) && MatchSet(c, r.query) != {}
    ensures k in MatchSet(c, r.query) && l in MatchSet(c, r.query) && answer.value == Some(c[k])
    ensures l in next && CanBecome(c[l], r.update, next[l]) && next == c[l := next[l]]
  {
    k := FoundByChange(c, r, next, answer);
    var updated := UpdateOfChange(true, c, r, [c[k]], next, Ok(answer));
    l := PickedByUpdate(c, UpdateOf(r), next, updated);
  }

  lemma PickedByUpdate(c: Coll, op: UpdateModel, next: Coll, res: Result<UpdateResult>) returns (l: string)
    requires MatchSet(c, op.filter) != {} && !op.multi && MemUpdates(c, [op], next, res) && res.Ok?
    ensures l in MatchSet(c, op.filter) && l in next && CanBecome(c[l], op.update, next[l]) && next == c[l := next[l]]
  {
    hide Rewrites;
    var r := TheUpdate(c, op, next, res);
    l :| l in MatchSet(c, op.filter) && Rewrites(c, {l}, op.update, next);
    OneRewritten(c, l, op.update, next);
  }

  lemma ChangesAnother(c: Coll, r: Request, k: string, l: string, doc: Document)
    requires !r.remove && !r.returnNew && r.update != map[]
    requires k in MatchSet(c, r.query) && l in MatchSet(c, r.query) && k != l && CanBecome(c[l], r.update, doc)
    ensures Protocol(true, c, r, c[l := doc], Ok(Answer(Some(c[k]), 1, true)))
  {
    hide MemFind, MemUpdates;
    var found, res := Ok([c[k]]), Ok(UpdateResult(1, 1, []));
    var next, answer: Result<Answer> := c[l := doc], Ok(Answer(Some(c[k]), 1, true));
    MetFirst(c, r.query, k, l);
    UpdatedFirst(c, UpdateOf(r), l, doc);
    assert UpdatesTo(true, c, [UpdateOf(r)], next, res);
    assert ReplyStep(true, next, r, [c[k]], answer);
    assert ChangeStep(true, c, r, [c[k]], next, answer);
    assert Finds(true, c, One(r.query), found);
  }

  lemma UpdatedFirst(c: Coll, op: UpdateModel, l: string, doc: Document)
    requires l in MatchSet(c, op.filter) && !op.multi && CanBecome(c[l], op.update, doc)
    ensures MemUpdates(c, [op], c[l := doc], Ok(UpdateResult(1, 1, [])))
  {
    assert Rewrites(c, {l}, op.update, c[l := doc]);
    LoneUpdate(c, op, c[l := doc], UpdateResult(1, 1, []));
  }

  /** In memory the find and the update each pick by their own map order.  The document
      returned is the one changed, for sure, exactly when at most one matches, or the
      update is refused, or it changes no match at all. */
  lemma MemoryChangesExactly(c: Coll, query: Document, u: Document, upsert: bool)
    requires KeyInvariant(c) && u != map[]
    ensures Coherent(true, c, ChangeOne(query, u, upsert)) <==>
            |MatchSet(c, query)| <= 1 || !Succeeds(u) || forall k :: k in MatchSet(c, query) ==> Idle(c[k], u)
  {
    hide Protocol, OnlyReturned, CanBecome;
    var r, matched := ChangeOne(query, u, upsert), MatchSet(c, query);
    if |matched| <= 1 || !Succeeds(u) || forall k :: k in matched ==> Idle(c[k], u) {
      forall next, answer | Protocol(true, c, r, next, Ok(answer)) && matched != {}
        ensures OnlyReturned(c, answer.value, next)
      {
        var k, l := PicksTwice(c, r, next, answer);
        PicksAgree(c, r, k, l, next);
      }
    } else {
      var l :| l in matched && !Idle(c[l], u);
      PicksDiffer(c, r, l);
    }
  }

  lemma PicksDiffer(c: Coll, r: Request, l: string)
    requires KeyInvariant(c) && r == ChangeOne(r.query, r.update, r.upsert) && r.update != map[]
    requires |MatchSet(c, r.query)| > 1 && l in MatchSet(c, r.query) && !Idle(c[l], r.update)
    ensures !Coherent(true, c, r)
  {
    hide Protocol, CanBecome;
    var doc :| CanBecome(c[l], r.update, doc) && doc != c[l];
    var k := AnotherMatch(MatchSet(c, r.query), l);
    ChangesAnother(c, r, k, l, doc);
    OtherChanged(c, k, l, doc);
    var answer := Answer(Some(c[k]), 1, true);
    assert Protocol(true, c, r, c[l := doc], Ok(answer)) && !OnlyReturned(c, answer.value, c[l := doc]);
  }

  lemma AnotherMatch(matched: set<string>, l: string) returns (k: string)
    requires |matched| > 1
    ensures k in matched && k != l
  {
    var m, n := TwoMatches(matched);
    k := if m == l then n else m;
  }

  lemma PicksAgree(c: Coll, r: Request, k: string, l: string, next: Coll)
    requires k in MatchSet(c, r.query) && l in MatchSet(c, r.query)
    requires l in next && CanBecome(c[l], r.update, next[l]) && next == c[l := next[l]]
    requires |MatchSet(c, r.query)| <= 1 || !Succeeds(r.update) || Idle(c[l], r.update)
    ensures OnlyReturned(c, Some(c[k]), next)
  {
    if |MatchSet(c, r.query)| <= 1 {
      assert |MatchSet(c, r.query) - {k}| == 0;
      assert MatchSet(c, r.query) == {k};
    }
    assert SameElsewhere(c, k, next);
  }

  // ----- an update on TiDB -----

  lemma LoneTidbUpdate(t: Coll, op: UpdateModel, next: Coll, r: UpdateResult)
    requires TidbUpdate(t, Scan(t), op, next, Ok(r))
    ensures TidbUpdates(t, Scan(t), [op], next, Ok(r))
  {
    hide TidbUpdate;
    var snapshot, res := Scan(t), Ok(r);
    assert [op][1..] == [];
    PlusNothing(r);
    assert TidbUpdate(t, snapshot, [op][0], next, res);
    assert TidbUpdates(next, snapshot, [op][1..], next, Ok(NOTHING)) && res == Chain(r, Ok(NOTHING));
  }

  /** Every outcome for the least match can be reached. */
  lemma CanChangeLeast(t: Coll, r: Request, doc: Document)
    requires r == ChangeOne(r.query, r.update, r.upsert) && r.update != map[] && !Refuses(r.query)
    requires MatchSet(t, r.query) != {}
    requires var k := LeastKey(MatchSet(t, r.query)); KeepsKeys(t, {k}, r.update) && CanBecome(t[k], r.update, doc)
    ensures var next := t[LeastKey(MatchSet(t, r.query)) := doc]; Protocol(false, t, r, next, Ok(Shown(t, next, r)))
  {
    hide TidbFind, TidbUpdates, KeepsKeys, CanBecome, LeastKey, FoundKey;
    var next := t[LeastKey(MatchSet(t, r.query)) := doc];
    var found, answer := DocumentsAt(t, FoundKey(t, r.query)), Ok(Shown(t, next, r));
    TidbFinds(t, r.query, Ok(found));
    LeastWritten(t, UpdateOf(r), LeastKey(MatchSet(t, r.query)), doc);
    assert UpdatesTo(false, t, [UpdateOf(r)], next, Ok(UpdateResult(1, 1, [])));
    assert ReplyStep(false, next, r, found, answer);
    assert ChangeStep(false, t, r, found, next, answer);
    FoundThenChanged(t, r, found, next, answer);
  }

  lemma FoundThenChanged(t: Coll, r: Request, found: seq<Document>, next: Coll, res: Result<Answer>)
    requires TidbFind(t, One(r.query), Ok(found)) && !r.remove && ChangeStep(false, t, r, found, next, res)
    ensures Protocol(false, t, r, next, res)
  {
    hide ChangeStep, TidbFind;
    var f := Ok(found);
    assert Finds(false, t, One(r.query), f) && f.value == found;
  }

  lemma LeastWritten(t: Coll, op: UpdateModel, k: string, doc: Document)
    requires !op.multi && MatchSet(t, op.filter) != {} && k == LeastKey(MatchSet(t, op.filter))
    requires KeepsKeys(t, {k}, op.update) && CanBecome(t[k], op.update, doc)
    ensures TidbUpdates(t, Scan(t), [op], t[k := doc], Ok(UpdateResult(1, 1, [])))
  {
    hide TidbUpdates, TidbUpdate, LeastKey, Targets, Scan, CanBecome;
    FirstTarget(t, op);
    assert DocsAt(t, [k]) == [t[k]];
    assert Elements([k]) == {k};
    RewrittenAt(t, k, op.update, doc);
    WritesAll(t, Scan(t), op, [k], t[k := doc]);
    LoneTidbUpdate(t, op, t[k := doc], UpdateResult(1, 1, []));
  }

  lemma RewrittenAt(t: Coll, k: string, u: Document, doc: Document)
    requires k in t && CanBecome(t[k], u, doc)
    ensures Rewrites(t, {k}, u, t[k := doc])
  {
    assert t[k := doc].Keys == t.Keys;
  }

  /** On TiDB the update takes the least match, while a find for an `_id` looks one key up.
      The document returned is the one changed exactly when nothing matches, the find or
      the update is refused, the find finds the least match, or it finds another and the
      least match stays as it is. */
  lemma TidbChangesExactly(t: Coll, query: Document, u: Document, upsert: bool)
    requires KeyInvariant(t) && u != map[]
    requires MatchSet(t, query) != {} ==> KeepsKeys(t, {LeastKey(MatchSet(t, query))}, u)
    ensures Coherent(false, t, ChangeOne(query, u, upsert)) <==>
            || MatchSet(t, query) == {} || Refuses(query) || !Succeeds(u)
            || FoundKey(t, query) == Some(LeastKey(MatchSet(t, query)))
            || (FoundKey(t, query).Some? && Idle(t[LeastKey(MatchSet(t, query))], u))
  {
    hide Protocol, OnlyReturned, KeepsKeys, FoundKey, LeastKey, CanBecome, Idle;
    var r, matched, found := ChangeOne(query, u, upsert), MatchSet(t, query), FoundKey(t, query);
    if matched != {} {
      var k := LeastKey(matched);
      if Refuses(query) || !Succeeds(u) || found == Some(k) || (found.Some? && Idle(t[k], u)) {
        forall next, answer | Protocol(false, t, r, next, Ok(answer)) ensures OnlyReturned(t, answer.value, next) {
          var doc := TidbAnswers(t, r, next, Ok(answer));
          var start := FoundAtStart(t, r, next, Ok(answer));
          FoundShows(t, r, k, doc);
        }
      } else {
        FoundHides(t, r, k);
      }
    }
  }

  lemma FoundShows(t: Coll, r: Request, k: string, doc: Document)
    requires r == ChangeOne(r.query, r.update, r.upsert) && k in t && CanBecome(t[k], r.update, doc)
    requires var found := FoundKey(t, r.query);
             !Succeeds(r.update) || found == Some(k) || (found.Some? && Idle(t[k], r.update))
    ensures OnlyReturned(t, Shown(t, t[k := doc], r).value, t[k := doc])
  {
    hide FoundKey;
    MustSucceed(t[k], r.update, doc);
    assert SameElsewhere(t, FoundKey(t, r.query).get, t[k := doc]);
  }

  lemma MustSucceed(doc: Document, u: Document, next: Document)
    requires CanBecome(doc, u, next)
    ensures Succeeds(u)
  {
    var now :| Outcome(doc, u, now, next);
  }

  lemma FoundHides(t: Coll, r: Request, k: string)
    requires KeyInvariant(t) && r == ChangeOne(r.query, r.update, r.upsert) && r.update != map[]
    requires !Refuses(r.query) && Succeeds(r.update)
    requires MatchSet(t, r.query) != {} && k == LeastKey(MatchSet(t, r.query)) && KeepsKeys(t, {k}, r.update)
    requires FoundKey(t, r.query) != Some(k) && (FoundKey(t, r.query).Some? ==> !Idle(t[k], r.update))
    ensures !Coherent(false, t, r)
  {
    hide Protocol, KeepsKeys, CanBecome, FoundKey, LeastKey;
    var doc, found := SomeOutcome(t[k], r.update), FoundKey(t, r.query);
    if found.Some? {
      doc :| CanBecome(t[k], r.update, doc) && doc != t[k];
      OtherChanged(t, found.get, k, doc);
    }
    CanChangeLeast(t, r, doc);
    assert !OnlyReturned(t, Shown(t, t[k := doc], r).value, t[k := doc]);
  }

  // ----- a removal on TiDB -----

  /** On TiDB `remove` removes the document it returns exactly when the find is refused,
      finds nothing, or finds the least match. */
  lemma TidbRemovesExactly(t: Coll, query: Document)
    requires KeyInvariant(t)
    ensures RemovesWhatItReturns(false, t, query) <==>
            || Refuses(query) || FoundKey(t, query).None?
            || FoundKey(t, query) == Some(LeastKey(MatchSet(t, query)))
  {
    hide Protocol, TookOut, FoundKey, LeastKey;
    var r, found := RemoveOne(query), FoundKey(t, query);
    if Refuses(query) || found.None? || found == Some(LeastKey(MatchSet(t, query))) {
      forall next, doc | Protocol(false, t, r, next, RemovedAnswer(doc)) ensures TookOut(t, doc, next) {
        TidbRemoves(t, r, next, RemovedAnswer(doc));
        var start := FoundAtStart(t, r, next, RemovedAnswer(doc));
        assert TookOut(t, doc, next) by { TookAt(t, found.get); }
      }
    } else {
      RemovesLeast(t, query, found.get, LeastKey(MatchSet(t, query)));
      RemovedElsewhere(t, found.get, LeastKey(MatchSet(t, query)));
    }
  }

  lemma TookAt(t: Coll, k: string)
    requires k in t
    ensures TookOut(t, t[k], t - {k})
  {
  }

  lemma RemovesLeast(t: Coll, query: Document, k: string, l: string)
    requires KeyInvariant(t) && !Refuses(query) && FoundKey(t, query) == Some(k)
    requires l == LeastKey(MatchSet(t, query))
    ensures Protocol(false, t, RemoveOne(query), t - {l}, RemovedAnswer(t[k]))
  {
    hide Protocol, RemoveStep, TidbFind, TidbDeletes, FoundKey, LeastKey, KeyInvariant;
    var found := Ok(DocumentsAt(t, FoundKey(t, query)));
    TidbFinds(t, query, found);
    TidbDeletesFirst(t, query);
    RemovedOne(t, query, l, found.value);
    FoundThenRemoved(t, RemoveOne(query), found, t - {l}, RemovedAnswer(t[k]));
  }

  lemma RemovedOne(t: Coll, query: Document, l: string, found: seq<Document>)
    requires |found| == 1 && TidbDeletes(t, Scan(t), [DeleteModel(query, 1)]) == Removed(t - {l}, true, 1)
    ensures RemoveStep(false, t, RemoveOne(query), found, t - {l}, RemovedAnswer(found[0]))
  {
    hide TidbDeletes, Scan;
    var deleted: Result<nat> := Ok(1);
    assert DeletesTo(false, t, [DeleteModel(query, 1)], t - {l}, deleted);
  }

  lemma FoundThenRemoved(t: Coll, r: Request, found: Result<seq<Document>>, next: Coll, res: Result<Answer>)
    requires TidbFind(t, One(r.query), found) && found.Ok? && r.remove && RemoveStep(false, t, r, found.value, next, res)
    ensures Protocol(false, t, r, next, res)
  {
    hide RemoveStep, TidbFind;
    assert Finds(false, t, One(r.query), found);
  }

  // ----- a lookup that misses the least match -----

  function ById(v: Value): Document {
    map["_id" := v]
  }

  function SetX(x: Value): Document {
    OneField("$set", "x", x)
  }

  lemma SetXOutcome(doc: Document, x: Value, next: Document)
    ensures CanBecome(doc, SetX(x), next) <==> next == doc["x" := x]
    ensures Succeeds(SetX(x)) && SetX(x) != map[]
  {
    OneFieldStep("$set", "x", x);
    forall now ensures Outcome(doc, SetX(x), now, next) <==> next == doc["x" := x] {
      OneFieldOutcome(doc, "$set", "x", x, now, next);
    }
    assert Outcome(doc, SetX(x), 0, next) <==> next == doc["x" := x];
  }

  lemma BothMatchOne(t: Coll, query: Document)
    requires t == IntAndLong() && query == ById(Int64(1))
    ensures KeyInvariant(t) && MatchSet(t, query) == t.Keys
    ensures !Refuses(query) && FoundKey(t, query) == Some("int64:1") && LeastKey(MatchSet(t, query)) == "int32:1"
  {
    hide ScanOrder, FormatInt, Matches;
    IntAndLongKeys(t);
    OneAsKey();
    OneMatchesBoth(t, Int64(1));
    assert MatchSet(t, query) == t.Keys;
  }

  /** With the number one stored as an int32 and as an int64 `_id`, findAndModify for the
      int64 returns that document and changes the other. */
  lemma LongFindsIntChanges(t: Coll, query: Document, x: Value, next: Coll, answer: Answer)
    requires t == IntAndLong() && query == ById(Int64(1))
    requires Protocol(false, t, ChangeOne(query, SetX(x), false), next, Ok(answer))
    ensures answer.value == Some(map["_id" := Int64(1)])
    ensures next == t["int32:1" := map["_id" := Int32(1), "x" := x]]
    ensures !Coherent(false, t, ChangeOne(query, SetX(x), false))
  {
    hide Protocol, ScanOrder, FormatInt, SetX, FoundKey, LeastKey;
    BothMatchOne(t, query);
    SetsXElsewhere(t, query, x, "int32:1", "int64:1", next, answer);
  }

  lemma SetsXElsewhere(t: Coll, query: Document, x: Value, k: string, key: string, next: Coll, answer: Answer)
    requires KeyInvariant(t) && !Refuses(query) && FoundKey(t, query) == Some(key) && key != k
    requires k == LeastKey(MatchSet(t, query)) && "x" !in t[k]
    requires Protocol(false, t, ChangeOne(query, SetX(x), false), next, Ok(answer))
    ensures answer.value == Some(t[key]) && next == t[k := t[k]["x" := x]]
    ensures !Coherent(false, t, ChangeOne(query, SetX(x), false))
  {
    hide Protocol, SetX, FoundKey, LeastKey;
    var r := ChangeOne(query, SetX(x), false);
    SetXKeepsKey(t, k, x);
    SetXOutcome(t[k], x, t[k]["x" := x]);
    assert "x" in t[k]["x" := x] && !Idle(t[k], SetX(x));
    var doc := TidbAnswers(t, r, next, Ok(answer));
    SetXOutcome(t[k], x, doc);
    FoundHides(t, r, k);
  }

  lemma SetXKeepsKey(t: Coll, k: string, x: Value)
    requires KeyInvariant(t)
    ensures KeepsKeys(t, {k}, SetX(x))
  {
    forall l, doc | l in {k} && l in t && CanBecome(t[l], SetX(x), doc) ensures DocumentIDKey(doc) == Ok(l) {
      SetXOutcome(t[l], x, doc);
      assert DocumentIDKey(t[l]) == Ok(l);
    }
  }

  /** In the same table `remove` for the int64 returns that document and removes the
      other. */
  lemma LongFindsIntRemoved(t: Coll, query: Document, next: Coll, answer: Answer)
    requires t == IntAndLong() && query == ById(Int64(1))
    requires Protocol(false, t, RemoveOne(query), next, Ok(answer))
    ensures answer.value == Some(map["_id" := Int64(1)]) && next == t - {"int32:1"}
    ensures !RemovesWhatItReturns(false, t, query)
  {
    hide Protocol, ScanOrder, FormatInt, FoundKey, LeastKey, RemovesWhatItReturns;
    BothMatchOne(t, query);
    RemovesElsewhere(t, query, "int32:1", "int64:1", next, answer);
  }

  lemma RemovesElsewhere(t: Coll, query: Document, k: string, key: string, next: Coll, answer: Answer)
    requires KeyInvariant(t) && !Refuses(query) && FoundKey(t, query) == Some(key) && key != k
    requires k == LeastKey(MatchSet(t, query)) && Protocol(false, t, RemoveOne(query), next, Ok(answer))
    ensures answer.value == Some(t[key]) && next == t - {k} && !RemovesWhatItReturns(false, t, query)
  {
    hide Protocol, FoundKey, LeastKey, RemovesWhatItReturns;
    TidbRemoves(t, RemoveOne(query), next, Ok(answer));
    TidbRemovesExactly(t, query);
  }
}
