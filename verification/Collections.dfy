/** One collection, as the memory store and the TiDB store hold it: a map from document
    keys to documents.

    The memory store visits its map in arbitrary order, so its operations are relations.
    The TiDB store scans its table in key order. */
module Collections {
  import opened Bson
  import opened Enumerations
  import opened Keys
  import opened Matching
  import opened Queries
  import opened StableSort
  import opened Updates

  type Coll = map<string, Document>

  // ----- requests and results -----

  datatype FindRequest = FindRequest(filter: Document, options: FindOptions)

  datatype UpdateModel = UpdateModel(filter: Document, update: Document, multi: bool, upsert: bool)

  datatype DeleteModel = DeleteModel(filter: Document, limit: int)

  datatype UpdateResult = UpdateResult(matched: nat, modified: nat, upserted: seq<Document>)

  const NO_OPTIONS := FindOptions(map[], map[], 0, 0)
  const NOTHING := UpdateResult(0, 0, [])

  function Plus(r: UpdateResult, s: UpdateResult): UpdateResult {
    UpdateResult(r.matched + s.matched, r.modified + s.modified, r.upserted + s.upserted)
  }

  /** The result of one update followed by the result of the others. */
  function Chain(r: UpdateResult, rest: Result<UpdateResult>): Result<UpdateResult> {
    if rest.Ok? then Ok(Plus(r, rest.value)) else rest
  }

  lemma PlusAssociative(a: UpdateResult, b: UpdateResult, rest: Result<UpdateResult>)
    ensures Chain(a, Chain(b, rest)) == Chain(Plus(a, b), rest)
    ensures Chain(NOTHING, rest) == rest
  {
    if rest.Ok? {
      assert a.upserted + (b.upserted + rest.value.upserted) == a.upserted + b.upserted + rest.value.upserted;
      assert [] + rest.value.upserted == rest.value.upserted;
    }
  }

  lemma PlusNothing(total: UpdateResult)
    ensures Chain(total, Ok(NOTHING)) == Ok(total)
  {
    assert total.upserted + [] == total.upserted;
  }

  // ----- keys -----

  /** Every document is filed under its own key. */
  ghost predicate KeyInvariant(c: Coll) {
    forall k :: k in c ==> DocumentIDKey(c[k]) == Ok(k)
  }

  /** Under the invariant a collection holds no `_id` twice. */
  lemma NoIdTwice(c: Coll, k: string, l: string)
    requires KeyInvariant(c) && k in c && l in c
    ensures "_id" in c[k] && "_id" in c[l]
    ensures SameId(c[k]["_id"], c[l]["_id"]) <==> k == l
  {
    assert DocumentIDKey(c[k]) == Ok(k) && DocumentIDKey(c[l]) == Ok(l);
    KeysIdentify(c[k]["_id"], c[l]["_id"]);
  }

  lemma InvariantKept(c: Coll, k: string, doc: Document)
    requires KeyInvariant(c) && DocumentIDKey(doc) == Ok(k)
    ensures KeyInvariant(c[k := doc])
  {
  }

  // ----- scans -----

  function DocsAt(c: Coll, order: seq<string>): seq<Document>
    requires forall k :: k in order ==> k in c
  {
    seq(|order|, i requires 0 <= i < |order| => assert order[i] in order; c[order[i]])
  }

  lemma DocsAtElsewhere(c: Coll, order: seq<string>, k: string, doc: Document)
    requires forall l :: l in order ==> l in c
    requires k !in order
    ensures DocsAt(c[k := doc], order) == DocsAt(c, order)
  {
    assert forall i :: 0 <= i < |order| ==> order[i] in order;
  }

  function MatchSet(c: Coll, filter: Document): set<string> {
    set k | k in c && Matches(c[k], Map(filter))
  }

  predicate Least(k: string, keys: set<string>) {
    k in keys && forall other | other in keys :: other != k ==> StrLess(k, other)
  }

  lemma {:induction false} LeastExists(keys: set<string>)
    requires keys != {}
    ensures exists k :: Least(k, keys)
    decreases keys
  {
    var x :| x in keys;
    if keys == {x} {
      assert Least(x, keys);
    } else {
      var rest := keys - {x};
      assert rest != {};
      LeastExists(rest);
      var k :| Least(k, rest);
      StrLessTrichotomy(k, x);
      if StrLess(k, x) {
        assert Least(k, keys);
      } else {
        forall other | other in keys && other != x ensures StrLess(x, other) {
          if other != k {
            StrLessTransitive(x, k, other);
          }
        }
        assert Least(x, keys);
      }
    }
  }

  lemma LeastUnique(keys: set<string>)
    ensures forall k, l :: Least(k, keys) && Least(l, keys) ==> k == l
  {
    forall k, l | Least(k, keys) && Least(l, keys) ensures k == l {
      StrLessTrichotomy(k, l);
    }
  }

  /** The order of the primary key. */
  function ScanOrder(keys: set<string>): (order: seq<string>)
    ensures Enumerates(order, keys)
    ensures keys != {} ==> Least(order[0], keys) && order[1..] == ScanOrder(keys - {order[0]})
    decreases keys
  {
    if keys == {} then []
    else
      LeastExists(keys);
      LeastUnique(keys);
      var k :| k in keys && Least(k, keys);
      var rest := ScanOrder(keys - {k});
      [k] + rest
  }

  function Scan(c: Coll): seq<Document> {
    DocsAt(c, ScanOrder(c.Keys))
  }

  // ----- insert -----

  datatype Changed = Changed(coll: Coll, ok: bool)

  /** Documents are added one by one until one is refused. */
  function InsertInto(c: Coll, docs: seq<Document>, validator: Document): Changed
    decreases |docs|
  {
    if docs == [] then Changed(c, true)
    else
      var key := DocumentIDKey(docs[0]);
      if !Validates(validator, docs[0]) || key.Err? || key.value in c then Changed(c, false)
      else InsertInto(c[key.value := docs[0]], docs[1..], validator)
  }

  // ----- the memory store -----

  /** A find that visits the collection in some order. */
  ghost predicate MemFind(c: Coll, req: FindRequest, out: seq<Document>) {
    exists order, field ::
      && Enumerates(order, c.Keys)
      && FirstEntry(req.options.sort, field)
      && out == ApplyFindOptions(Filter(Passes(Map(req.filter)), DocsAt(c, order)), req.options, field)
  }

  function WithId(doc: Document, now: int): Document {
    if "_id" in doc then doc else doc["_id" := Str("upsert-" + FormatInt(now))]
  }

  /** The document an upsert creates. */
  ghost predicate CanUpsert(op: UpdateModel, doc: Document) {
    exists base, now :: CanBecome(op.filter, op.update, base) && doc == WithId(base, now)
  }

  function UpsertResult(doc: Document): UpdateResult {
    UpdateResult(1, 1, [map["index" := Int32(0), "_id" := Lookup(doc, "_id")]])
  }

  ghost predicate Upserts(c: Coll, op: UpdateModel, next: Coll, r: UpdateResult) {
    exists doc ::
      && CanUpsert(op, doc)
      && DocumentIDKey(doc).Ok?
      && next == c[DocumentIDKey(doc).value := doc]
      && r == UpsertResult(doc)
  }

  /** Updates the documents under `keys`, each once, and nothing else. */
  ghost predicate Rewrites(c: Coll, keys: set<string>, u: Document, next: Coll) {
    && next.Keys == c.Keys
    && forall k :: k in c ==> if k in keys then CanBecome(c[k], u, next[k]) else next[k] == c[k]
  }

  /** One update that succeeds. */
  ghost predicate MemUpdate(c: Coll, op: UpdateModel, next: Coll, r: UpdateResult) {
    var matched := MatchSet(c, op.filter);
    if matched != {} then
      if op.multi then Rewrites(c, matched, op.update, next) && r == UpdateResult(|matched|, |matched|, [])
      else exists k :: k in matched && Rewrites(c, {k}, op.update, next) && r == UpdateResult(1, 1, [])
    else if op.upsert then Upserts(c, op, next, r)
    else next == c && r == NOTHING
  }

  /** One update that fails: an unsupported operator met at a match, when the documents
      `hit` have been written already, or met by the upsert, or an upserted document
      without a key. */
  ghost predicate UpdateFails(c: Coll, op: UpdateModel, next: Coll) {
    var matched := MatchSet(c, op.filter);
    if matched != {} then !Succeeds(op.update) && exists hit :: hit < matched && Rewrites(c, hit, op.update, next)
    else
      && next == c && op.upsert
      && (!Succeeds(op.update) || exists doc :: CanUpsert(op, doc) && DocumentIDKey(doc).Err?)
  }

  /** A document written by an update shows that the update is supported. */
  lemma RewriteSupported(c: Coll, hit: set<string>, u: Document, next: Coll, k: string)
    requires Rewrites(c, hit, u, next) && k in hit && k in c
    ensures Succeeds(u)
  {
    assert CanBecome(c[k], u, next[k]);
  }

  lemma NoHit(c: Coll, u: Document, next: Coll)
    requires Rewrites(c, {}, u, next)
    ensures next == c
  {
  }

  lemma SupportedOrUnwritten(c: Coll, hit: set<string>, u: Document, next: Coll)
    requires hit <= c.Keys && Rewrites(c, hit, u, next)
    ensures Succeeds(u) || next == c
  {
    if hit == {} {
      NoHit(c, u, next);
    } else {
      var k :| k in hit;
      RewriteSupported(c, hit, u, next, k);
    }
  }

  /** An update that fails has written nothing: it fails at the first match. */
  lemma FailureWritesNothing(c: Coll, op: UpdateModel, next: Coll)
    requires UpdateFails(c, op, next)
    ensures next == c
  {
    if MatchSet(c, op.filter) != {} {
      var hit :| hit < MatchSet(c, op.filter) && Rewrites(c, hit, op.update, next);
      SupportedOrUnwritten(c, hit, op.update, next);
    }
  }

  /** The updates of a request, in order, up to the first that fails. */
  ghost predicate MemUpdates(c: Coll, ops: seq<UpdateModel>, next: Coll, res: Result<UpdateResult>)
    decreases |ops|
  {
    if ops == [] then next == c && res == Ok(NOTHING)
    else
      || (UpdateFails(c, ops[0], next) && res.Err?)
      || exists mid, r, rest ::
           && MemUpdate(c, ops[0], mid, r)
           && MemUpdates(mid, ops[1..], next, rest)
           && res == Chain(r, rest)
  }

  ghost predicate MemDelete(c: Coll, op: DeleteModel, next: Coll, n: nat) {
    var matched := MatchSet(c, op.filter);
    if op.limit == 1 && matched != {} then exists k :: k in matched && next == c - {k} && n == 1
    else next == c - matched && n == |matched|
  }

  ghost predicate MemDeletes(c: Coll, ops: seq<DeleteModel>, next: Coll, n: nat)
    decreases |ops|
  {
    if ops == [] then next == c && n == 0
    else exists mid, m: nat, rest: nat ::
      MemDelete(c, ops[0], mid, m) && MemDeletes(mid, ops[1..], next, rest) && n == m + rest
  }

  // ----- the TiDB store -----

  predicate CanPushDownFilter(filter: Document) {
    || filter == map[]
    || (|filter| == 1 && "_id" in filter && !filter["_id"].Map?)
  }

  predicate CanPushDown(req: FindRequest) {
    && req.options.skip == 0
    && req.options.sort == map[]
    && req.options.projection == map[]
    && CanPushDownFilter(req.filter)
  }

  /** What the SQL text and its arguments ask for. */
  datatype Query = Query(key: Option<string>, limit: int)

  /** `BuildFindSQL`: an `_id` filter becomes a key lookup, and only then or without a
      filter the limit is handed to SQL. */
  function BuildFindSQL(req: FindRequest): Result<Query> {
    if !CanPushDown(req) then Ok(Query(None, 0))
    else if "_id" in req.filter then
      var key := ValueKey(req.filter["_id"]);
      if key.Err? then Err(key.error) else Ok(Query(Some(key.value), req.options.limit))
    else Ok(Query(None, req.options.limit))
  }

  /** The rows a query returns. */
  function Rows(t: Coll, q: Query): seq<Document> {
    var rows :=
      match q.key
      case None => Scan(t)
      case Some(k) => if k in t then [t[k]] else [];
    if q.limit > 0 then Take(q.limit, rows) else rows
  }

  /** The rows are filtered and post-processed again by the engine. */
  function PostProcess(rows: seq<Document>, req: FindRequest, field: string): seq<Document> {
    ApplyFindOptions(Filter(Passes(Map(req.filter)), rows), req.options, field)
  }

  ghost predicate TidbFind(t: Coll, req: FindRequest, res: Result<seq<Document>>) {
    var q := BuildFindSQL(req);
    if q.Err? then res.Err?
    else exists field :: FirstEntry(req.options.sort, field) && res == Ok(PostProcess(Rows(t, q.value), req, field))
  }

  /** Inserts run in a transaction. */
  function TidbInsert(t: Coll, docs: seq<Document>, validator: Document): Changed {
    var r := InsertInto(t, docs, validator);
    if r.ok then r else Changed(t, false)
  }

  /** The documents of the snapshot that one update touches. */
  function Targets(snapshot: seq<Document>, op: UpdateModel): seq<Document> {
    var matched := Filter(Passes(Map(op.filter)), snapshot);
    if op.multi then matched else Take(1, matched)
  }

  /** What one REPLACE can write for a target. */
  ghost predicate Replaceable(doc: Document, u: Document, next: Document) {
    Succeeds(u) && CanBecome(doc, u, next) && DocumentIDKey(next).Ok?
  }

  /** The update or the REPLACE is refused. */
  ghost predicate Refused(doc: Document, u: Document) {
    !Succeeds(u) || exists next :: CanBecome(doc, u, next) && DocumentIDKey(next).Err?
  }

  /** One REPLACE per target, under the key of the new document. */
  ghost predicate ReplaceEach(t: Coll, targets: seq<Document>, u: Document, next: Coll, ok: bool)
    decreases |targets|
  {
    if targets == [] then next == t && ok
    else if !Succeeds(u) then next == t && !ok
    else exists doc ::
      && CanBecome(targets[0], u, doc)
      && if DocumentIDKey(doc).Err? then next == t && !ok
         else ReplaceEach(t[DocumentIDKey(doc).value := doc], targets[1..], u, next, ok)
  }

  ghost predicate TidbUpdate(t: Coll, snapshot: seq<Document>, op: UpdateModel, next: Coll, res: Result<UpdateResult>) {
    var targets := Targets(snapshot, op);
    if targets != [] then
      && ReplaceEach(t, targets, op.update, next, res.Ok?)
      && (res.Ok? ==> res.value == UpdateResult(|targets|, |targets|, []))
    else if op.upsert then
      || (res.Ok? && Upserts(t, op, next, res.value))
      || (res.Err? && next == t && (!Succeeds(op.update) || exists doc :: CanUpsert(op, doc) && DocumentIDKey(doc).Err?))
    else next == t && res == Ok(NOTHING)
  }

  /** All updates of a request see the same snapshot. */
  ghost predicate TidbUpdates(t: Coll, snapshot: seq<Document>, ops: seq<UpdateModel>, next: Coll, res: Result<UpdateResult>)
    decreases |ops|
  {
    if ops == [] then next == t && res == Ok(NOTHING)
    else exists mid, r ::
      && TidbUpdate(t, snapshot, ops[0], mid, r)
      && if r.Err? then next == mid && res == r
         else exists rest ::
           && TidbUpdates(mid, snapshot, ops[1..], next, rest)
           && res == Chain(r.value, rest)
  }

  /** The documents of the snapshot that one delete removes. */
  function Victims(snapshot: seq<Document>, op: DeleteModel): seq<Document> {
    var matched := Filter(Passes(Map(op.filter)), snapshot);
    if op.limit == 1 then Take(1, matched) else matched
  }

  /** One DELETE by key per document; a document without a key stops the request. */
  function DeleteEach(t: Coll, docs: seq<Document>): Changed
    decreases |docs|
  {
    if docs == [] then Changed(t, true)
    else
      var key := DocumentIDKey(docs[0]);
      if key.Err? then Changed(t, false) else DeleteEach(t - {key.value}, docs[1..])
  }

  /** The count is reported only by a request that succeeds. */
  datatype Removed = Removed(coll: Coll, ok: bool, count: nat)

  /** All deletes of a request see the same snapshot. */
  function TidbDeletes(t: Coll, snapshot: seq<Document>, ops: seq<DeleteModel>): Removed
    decreases |ops|
  {
    if ops == [] then Removed(t, true, 0)
    else
      var first := DeleteEach(t, Victims(snapshot, ops[0]));
      if !first.ok then Removed(first.coll, false, 0)
      else
        var rest := TidbDeletes(first.coll, snapshot, ops[1..]);
        Removed(rest.coll, rest.ok, |Victims(snapshot, ops[0])| + rest.count)
  }

  /** A request that ends with `r` leaves `coll` and answers `res`. */
  predicate IsReply(r: Removed, coll: Coll, res: Result<nat>) {
    coll == r.coll && res.Ok? == r.ok && (res.Ok? ==> res.value == r.count)
  }
}
