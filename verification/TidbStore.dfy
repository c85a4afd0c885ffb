/** The TiDB store (internal/backend/tidb/store.go, internal/backend/tidb/schema.go).
    A table is a map from `id_key` to documents that SQL scans in key order; SQL itself
    always succeeds.  Rows are written one by one, and only inserts use a transaction. */
module TidbStore {
  import opened Bson
  import opened Collections
  import opened Keys
  import Matching
  import opened Pipelines
  import PipelineExecution
  import opened Queries
  import opened StableSort
  import opened Updates

  datatype Namespace = Namespace(db: string, coll: string)

  // ----- table names -----

  predicate SafeChar(c: char) {
    'a' <= c <= 'z' || 'A' <= c <= 'Z' || '0' <= c <= '9' || c == '_'
  }

  function Sanitize(s: string): string {
    seq(|s|, i requires 0 <= i < |s| => if SafeChar(s[i]) then s[i] else '_')
  }

  function ToLower(s: string): string {
    seq(|s|, i requires 0 <= i < |s| => if 'A' <= s[i] <= 'Z' then (s[i] as int + 32) as char else s[i])
  }

  function TrimLeft(s: string): string {
    if s != [] && s[0] == '_' then TrimLeft(s[1..]) else s
  }

  function TrimRight(s: string): string {
    if s != [] && s[|s| - 1] == '_' then TrimRight(s[..|s| - 1]) else s
  }

  function PhysicalTableName(ns: Namespace): string {
    var base := TrimRight(TrimLeft(Sanitize("tm_doc_" + ns.db + "_" + ns.coll)));
    if base == "" || base == "tm_doc" then "tm_doc_collection" else ToLower(base)
  }

  /** Different namespaces can share a table. */
  lemma TablesCollide()
    ensures PhysicalTableName(Namespace("a", "b_c")) == PhysicalTableName(Namespace("a_b", "c"))
  {
    assert "tm_doc_" + "a" + "_" + "b_c" == "tm_doc_" + "a_b" + "_" + "c";
  }

  lemma {:induction false} TrimmedChars(s: string)
    ensures forall c :: c in TrimLeft(s) ==> c in s
    ensures forall c :: c in TrimRight(s) ==> c in s
    decreases |s|
  {
    if s != [] {
      TrimmedChars(s[1..]);
      TrimmedChars(s[..|s| - 1]);
    }
  }

  /** Every table name is an identifier of lower-case letters, digits and underscores. */
  lemma TableNameIsIdentifier(ns: Namespace)
    ensures PhysicalTableName(ns) != ""
    ensures forall c :: c in PhysicalTableName(ns) ==> 'a' <= c <= 'z' || '0' <= c <= '9' || c == '_'
  {
    var clean := Sanitize("tm_doc_" + ns.db + "_" + ns.coll);
    TrimmedChars(clean);
    TrimmedChars(TrimLeft(clean));
    var base := TrimRight(TrimLeft(clean));
    forall c | c in ToLower(base) ensures 'a' <= c <= 'z' || '0' <= c <= '9' || c == '_' {
      var i :| 0 <= i < |base| && ToLower(base)[i] == c;
      assert base[i] in base && base[i] in clean;
    }
  }

  /** No upper case and no character that is replaced; no underscore in the name of the
      database, and none at the end of the name of the collection. */
  predicate PlainNames(ns: Namespace) {
    && (forall c | c in ns.db :: SafeChar(c) && !('A' <= c <= 'Z') && c != '_')
    && (forall c | c in ns.coll :: SafeChar(c) && !('A' <= c <= 'Z'))
    && ns.coll != "" && ns.coll[|ns.coll| - 1] != '_'
  }

  lemma PlainTable(ns: Namespace)
    requires PlainNames(ns)
    ensures PhysicalTableName(ns) == "tm_doc_" + (ns.db + "_" + ns.coll)
  {
    var base := "tm_doc_" + ns.db + "_" + ns.coll;
    assert base == "tm_doc_" + (ns.db + "_" + ns.coll);
    forall i | 0 <= i < |base| ensures SafeChar(base[i]) && !('A' <= base[i] <= 'Z') {
      assert base[i] in "tm_doc_" || base[i] in ns.db || base[i] == '_' || base[i] in ns.coll;
    }
    assert Sanitize(base) == base && ToLower(base) == base;
    assert base[0] == 't' && base[|base| - 1] == ns.coll[|ns.coll| - 1];
    assert |base| > 7;
  }

  /** The first separator tells the parts apart. */
  lemma {:induction false} FirstSeparator(c: char, a: string, b: string, x: string, y: string)
    requires c !in a && c !in b && a + [c] + x == b + [c] + y
    ensures a == b && x == y
    decreases |a|
  {
    var u, v := a + [c] + x, b + [c] + y;
    assert u[0] == v[0];
    if a == "" || b == "" {
      assert a == b;
      assert x == u[1..] && y == v[1..];
    } else {
      assert u[1..] == a[1..] + [c] + x && v[1..] == b[1..] + [c] + y;
      FirstSeparator(c, a[1..], b[1..], x, y);
    }
  }

  /** Namespaces with plain names share a table only if they are the same. */
  lemma PlainNamesApart(m: Namespace, n: Namespace)
    requires PlainNames(m) && PlainNames(n)
    ensures PhysicalTableName(m) == PhysicalTableName(n) <==> m == n
  {
    PlainTable(m);
    PlainTable(n);
    if PhysicalTableName(m) == PhysicalTableName(n) {
      var u, v := "tm_doc_" + (m.db + "_" + m.coll), "tm_doc_" + (n.db + "_" + n.coll);
      assert u[7..] == m.db + "_" + m.coll && v[7..] == n.db + "_" + n.coll;
      assert "_" == ['_'];
      FirstSeparator('_', m.db, n.db, m.coll, n.coll);
    }
  }

  // ----- the store -----

  /** Only one table may differ. */
  predicate OnlyAt(was: map<string, Coll>, table: string, now: map<string, Coll>) {
    table in now && now == was[table := now[table]]
  }

  lemma OnlyAtTwice(was: map<string, Coll>, table: string, mid: map<string, Coll>, now: map<string, Coll>)
    requires OnlyAt(was, table, mid) && OnlyAt(mid, table, now)
    ensures OnlyAt(was, table, now)
  {
  }

  class Store {
    var tables: map<string, Coll>
    var catalog: map<Namespace, Document>

    constructor ()
      ensures tables == map[] && catalog == map[]
    {
      tables, catalog := map[], map[];
    }

    function Collection(ns: Namespace): Coll
      reads this
    {
      var table := PhysicalTableName(ns);
      if table in tables then tables[table] else map[]
    }

    function Validator(ns: Namespace): Document
      reads this
    {
      if ns in catalog then AsMap(Lookup(catalog[ns], "validator")) else map[]
    }

    /** Only the table of `ns` may differ. */
    twostate predicate OnlyTable(ns: Namespace)
      reads this
    {
      OnlyAt(old(tables), PhysicalTableName(ns), tables)
    }

    /** The catalog row keeps an earlier validator unless a new one is given. */
    twostate predicate Created(ns: Namespace, validator: Document)
      reads this
    {
      var options := if ns in old(catalog) then old(catalog)[ns] else map[];
      catalog == old(catalog)[ns := if validator == map[] then options else options["validator" := Map(validator)]]
    }

    method EnsureCollection(ns: Namespace)
      modifies this
      ensures catalog == old(catalog)
      ensures OnlyTable(ns) && Collection(ns) == old(Collection(ns))
    {
      var table := PhysicalTableName(ns);
      if table !in tables {
        tables := tables[table := map[]];
      }
    }

    method CreateCollection(ns: Namespace, validator: Document)
      modifies this
      ensures OnlyTable(ns) && Collection(ns) == old(Collection(ns))
      ensures Created(ns, validator)
      ensures Validator(ns) == if validator == map[] then old(Validator(ns)) else validator
      ensures forall other :: other != ns ==> Validator(other) == old(Validator(other))
    {
      EnsureCollection(ns);
      var options := if ns in catalog then catalog[ns] else map[];
      if validator != map[] {
        options := options["validator" := Map(validator)];
      }
      catalog := catalog[ns := options];
    }

    method DropCollection(ns: Namespace)
      modifies this
      ensures tables == old(tables) - {PhysicalTableName(ns)} && catalog == old(catalog) - {ns}
      ensures Validator(ns) == map[]
    {
      tables := tables - {PhysicalTableName(ns)};
      catalog := catalog - {ns};
    }

    /** All documents or, when one is refused, none: the transaction is rolled back. */
    method Insert(ns: Namespace, docs: seq<Document>) returns (res: Result<nat>)
      modifies this
      ensures OnlyTable(ns) && Created(ns, map[])
      ensures Changed(Collection(ns), res.Ok?) == TidbInsert(old(Collection(ns)), docs, old(Validator(ns)))
      ensures res.Ok? ==> res.value == |docs|
    {
      CreateCollection(ns, map[]);
      var validator := Validator(ns);
      var coll, ok := InsertRows(Collection(ns), docs, validator);
      if !ok {
        return Err("insert refused");
      }
      ghost var was := tables;
      tables := tables[PhysicalTableName(ns) := coll];
      OnlyAtTwice(old(tables), PhysicalTableName(ns), was, tables);
      return Ok(|docs|);
    }

    /** Runs the query, and filters and post-processes its rows again. */
    method Find(ns: Namespace, req: FindRequest) returns (res: Result<seq<Document>>)
      modifies this
      ensures catalog == old(catalog)
      ensures OnlyTable(ns) && Collection(ns) == old(Collection(ns))
      ensures TidbFind(Collection(ns), req, res)
    {
      EnsureCollection(ns);
      var q := BuildFindSQL(req);
      if q.Err? {
        return Err(q.error);
      }
      var matched := FilterRows(Rows(Collection(ns), q.value), req.filter);
      var docs := ApplyFindOptionsLoop(matched, req.options);
      res := Ok(docs);
    }

    method Count(ns: Namespace, filter: Document) returns (res: Result<nat>)
      modifies this
      ensures catalog == old(catalog)
      ensures OnlyTable(ns) && Collection(ns) == old(Collection(ns))
      ensures exists found ::
                TidbFind(Collection(ns), FindRequest(filter, NO_OPTIONS), found)
                && if found.Ok? then res == Ok(|found.value|) else res.Err?
    {
      var found := Find(ns, FindRequest(filter, NO_OPTIONS));
      if found.Err? {
        return Err(found.error);
      }
      return Ok(|found.value|);
    }

    method ReplaceDocument(table: string, doc: Document) returns (ok: bool)
      requires table in tables
      modifies this
      ensures catalog == old(catalog)
      ensures ok == DocumentIDKey(doc).Ok?
      ensures tables ==
              if ok then old(tables)[table := old(tables)[table][DocumentIDKey(doc).value := doc]] else old(tables)
    {
      var key := DocumentIDKey(doc);
      ok := key.Ok?;
      if ok {
        tables := tables[table := tables[table][key.value := doc]];
      }
    }

    /** The updates of a request, all on one snapshot.  A failing one stops the request;
        the rows written so far stay. */
    method Update(ns: Namespace, ops: seq<UpdateModel>, now: int) returns (res: Result<UpdateResult>)
      modifies this
      ensures OnlyTable(ns) && Created(ns, map[])
      ensures var before := old(Collection(ns)); TidbUpdates(before, Scan(before), ops, Collection(ns), res)
    {
      CreateCollection(ns, map[]);
      var snapshot := Snapshot(ns);
      ghost var was := tables;
      assert OnlyAt(old(tables), PhysicalTableName(ns), was);
      assert snapshot == Scan(was[PhysicalTableName(ns)]);
      res := UpdateRows(PhysicalTableName(ns), snapshot, ops, now);
      OnlyAtTwice(old(tables), PhysicalTableName(ns), was, tables);
    }

    method UpdateRows(table: string, snapshot: seq<Document>, ops: seq<UpdateModel>, now: int)
      returns (res: Result<UpdateResult>)
      requires table in tables
      modifies this
      ensures catalog == old(catalog)
      ensures OnlyAt(old(tables), table, tables)
      ensures TidbUpdates(old(tables[table]), snapshot, ops, tables[table], res)
    {
      ghost var before := tables[table];
      var total := NOTHING;
      assert ops[0..] == ops;
      StartUpdates(before, snapshot, ops);
      for i := 0 to |ops|
        invariant OnlyAt(old(tables), table, tables)
        invariant catalog == old(catalog)
        invariant UpdatesLeadOn(before, snapshot, ops, tables[table], ops[i..], total)
      {
        assert ops[i..][0] == ops[i] && ops[i..][1..] == ops[i + 1..];
        ghost var was := tables;
        ghost var mid := tables[table];
        var r := UpdateOne(table, snapshot, ops[i], now);
        OnlyAtTwice(old(tables), table, was, tables);
        if r.Err? {
          FailedUpdate(before, snapshot, ops, mid, ops[i..], tables[table], r, total);
          return r;
        }
        MoreUpdates(before, snapshot, ops, mid, ops[i..], tables[table], r.value, total);
        total := Plus(total, r.value);
      }
      assert ops[|ops|..] == [];
      LastUpdate(before, snapshot, ops, tables[table], total);
      res := Ok(total);
    }

    /** The find without filter or options that starts an update or a delete. */
    method Snapshot(ns: Namespace) returns (docs: seq<Document>)
      modifies this
      ensures catalog == old(catalog)
      ensures OnlyTable(ns) && Collection(ns) == old(Collection(ns))
      ensures docs == Scan(Collection(ns))
    {
      var found := Find(ns, FindRequest(map[], NO_OPTIONS));
      EverythingFound(Collection(ns), found);
      docs := found.value;
    }

    method UpdateOne(table: string, snapshot: seq<Document>, op: UpdateModel, now: int)
      returns (r: Result<UpdateResult>)
      requires table in tables
      modifies this
      ensures catalog == old(catalog)
      ensures OnlyAt(old(tables), table, tables)
      ensures TidbUpdate(old(tables[table]), snapshot, op, tables[table], r)
    {
      var n, ok := ReplaceTargets(table, snapshot, op, now);
      ghost var was := tables;
      if !ok {
        return Err("update failed");
      }
      if n > 0 || !op.upsert {
        return Ok(UpdateResult(n, n, []));
      }
      r := Upsert(table, op, now);
      OnlyAtTwice(old(tables), table, was, tables);
    }

    /** The loop over the snapshot: one REPLACE per match, or one alone. */
    method ReplaceTargets(table: string, snapshot: seq<Document>, op: UpdateModel, now: int) returns (n: nat, ok: bool)
      requires table in tables
      modifies this
      ensures catalog == old(catalog)
      ensures OnlyAt(old(tables), table, tables)
      ensures ReplaceEach(old(tables[table]), Targets(snapshot, op), op.update, tables[table], ok)
      ensures ok ==> n == |Targets(snapshot, op)|
      ensures !ok ==> Targets(snapshot, op) != []
    {
      n := 0;
      ghost var start, all := tables[table], Targets(snapshot, op);
      assert snapshot[0..] == snapshot;
      for i := 0 to |snapshot|
        invariant OnlyAt(old(tables), table, tables)
        invariant catalog == old(catalog)
        invariant ReplacesLeadOn(start, all, op.update, tables[table], Targets(snapshot[i..], op))
        invariant n + |Targets(snapshot[i..], op)| == |all|
      {
        var matches := Matching.MatchesLoop(snapshot[i], Map(op.filter));
        NextTarget(snapshot, op, i);
        if matches {
          n := n + 1;
          ghost var was := tables;
          ghost var next;
          ok, next := ReplaceOne(table, snapshot[i], op.update, now);
          OnlyAtTwice(old(tables), table, was, tables);
          if !ok {
            RefusedReplace(start, all, op.update, was[table], Targets(snapshot[i..], op));
            return;
          }
          MoreReplaces(start, all, op.update, was[table], Targets(snapshot[i..], op), next);
          if !op.multi {
            LastReplace(start, all, op.update, tables[table]);
            return;
          }
        }
      }
      LastReplace(start, all, op.update, tables[table]);
      ok := true;
    }

    method ReplaceOne(table: string, doc: Document, u: Document, now: int) returns (ok: bool, ghost next: Document)
      requires table in tables
      modifies this
      ensures catalog == old(catalog)
      ensures ok ==> Replaceable(doc, u, next)
      ensures tables ==
              if ok then old(tables)[table := old(tables)[table][DocumentIDKey(next).value := next]] else old(tables)
      ensures !ok ==> Refused(doc, u)
    {
      var clone, applied := UpdateClone(doc, u, now);
      next := clone;
      if !applied {
        return false, clone;
      }
      ok := ReplaceDocument(table, clone);
    }

    method Upsert(table: string, op: UpdateModel, now: int) returns (r: Result<UpdateResult>)
      requires table in tables && op.upsert
      modifies this
      ensures catalog == old(catalog)
      ensures OnlyAt(old(tables), table, tables)
      ensures r.Ok? ==> Upserts(old(tables[table]), op, tables[table], r.value)
      ensures r.Err? ==> tables[table] == old(tables[table])
      ensures r.Err? ==> !Succeeds(op.update) || exists doc :: CanUpsert(op, doc) && DocumentIDKey(doc).Err?
    {
      var base, applied := UpdateClone(op.filter, op.update, now);
      if !applied {
        return Err("update failed");
      }
      var doc := WithId(base, now);
      assert CanUpsert(op, doc);
      var ok := ReplaceDocument(table, doc);
      r := if ok then Ok(UpsertResult(doc)) else Err("no usable _id");
    }

    /** The deletes of a request, all on one snapshot. */
    method Delete(ns: Namespace, ops: seq<DeleteModel>) returns (res: Result<nat>)
      modifies this
      ensures catalog == old(catalog)
      ensures OnlyTable(ns)
      ensures IsReply(TidbDeletes(old(Collection(ns)), Scan(old(Collection(ns))), ops), Collection(ns), res)
    {
      var snapshot := Snapshot(ns);
      ghost var was := tables;
      res := DeleteRows(PhysicalTableName(ns), snapshot, ops);
      OnlyAtTwice(old(tables), PhysicalTableName(ns), was, tables);
    }

    method DeleteRows(table: string, snapshot: seq<Document>, ops: seq<DeleteModel>) returns (res: Result<nat>)
      requires table in tables
      modifies this
      ensures catalog == old(catalog)
      ensures OnlyAt(old(tables), table, tables)
      ensures IsReply(TidbDeletes(old(tables[table]), snapshot, ops), tables[table], res)
    {
      ghost var before := tables[table];
      var deleted := 0;
      assert ops[0..] == ops;
      for i := 0 to |ops|
        invariant OnlyAt(old(tables), table, tables)
        invariant catalog == old(catalog)
        invariant TidbDeletes(before, snapshot, ops) == Counted(deleted, TidbDeletes(tables[table], snapshot, ops[i..]))
      {
        ghost var was := tables;
        var n, ok := DeleteVictims(table, snapshot, ops[i]);
        OnlyAtTwice(old(tables), table, was, tables);
        NextDelete(was[table], snapshot, ops, i, Changed(tables[table], ok));
        if !ok {
          return Err("no usable _id");
        }
        deleted := deleted + n;
      }
      assert ops[|ops|..] == [];
      res := Ok(deleted);
    }

    method DeleteVictims(table: string, snapshot: seq<Document>, op: DeleteModel) returns (n: nat, ok: bool)
      requires table in tables
      modifies this
      ensures catalog == old(catalog)
      ensures OnlyAt(old(tables), table, tables)
      ensures DeleteEach(old(tables[table]), Victims(snapshot, op)) == Changed(tables[table], ok)
      ensures ok ==> n == |Victims(snapshot, op)|
    {
      n := 0;
      ghost var start, all := tables[table], Victims(snapshot, op);
      assert snapshot[0..] == snapshot;
      for i := 0 to |snapshot|
        invariant OnlyAt(old(tables), table, tables)
        invariant catalog == old(catalog)
        invariant DeleteEach(start, all) == DeleteEach(tables[table], Victims(snapshot[i..], op))
        invariant n + |Victims(snapshot[i..], op)| == |all|
      {
        var matches := Matching.MatchesLoop(snapshot[i], Map(op.filter));
        NextVictim(snapshot, op, i);
        if matches {
          var key := DocumentIDKey(snapshot[i]);
          if key.Err? {
            return n, false;
          }
          ghost var was := tables;
          tables := tables[table := tables[table] - {key.value}];
          OnlyAtTwice(old(tables), table, was, tables);
          n := n + 1;
          if op.limit == 1 {
            return n, true;
          }
        }
      }
      ok := true;
    }

    /** Runs the pipeline over the whole table. */
    method Aggregate(ns: Namespace, pipeline: seq<Value>) returns (out: Piped)
      modifies this
      ensures catalog == old(catalog)
      ensures OnlyTable(ns) && Collection(ns) == old(Collection(ns))
      ensures PipelineRuns(Scan(Collection(ns)), pipeline, out)
    {
      var docs := Snapshot(ns);
      out := PipelineExecution.ApplyPipeline(docs, pipeline);
    }
  }

  /** The rows of one transaction. */
  method InsertRows(c: Coll, docs: seq<Document>, validator: Document) returns (coll: Coll, ok: bool)
    ensures Changed(coll, ok) == InsertInto(c, docs, validator)
  {
    coll := c;
    assert docs[0..] == docs;
    for i := 0 to |docs|
      invariant InsertInto(coll, docs[i..], validator) == InsertInto(c, docs, validator)
    {
      assert docs[i..][1..] == docs[i + 1..];
      if !Matching.Validates(validator, docs[i]) {
        return coll, false;
      }
      var key := DocumentIDKey(docs[i]);
      if key.Err? || key.value in coll {
        return coll, false;
      }
      coll := coll[key.value := docs[i]];
    }
    ok := true;
  }

  method FilterRows(rows: seq<Document>, filter: Document) returns (matched: seq<Document>)
    ensures matched == Filter(Passes(Map(filter)), rows)
  {
    matched := [];
    for i := 0 to |rows|
      invariant matched == Filter(Passes(Map(filter)), rows[..i])
    {
      assert rows[..i + 1] == rows[..i] + [rows[i]];
      FilterAppend(Passes(Map(filter)), rows[..i], [rows[i]]);
      assert [rows[i]][1..] == [];
      var matches := Matching.MatchesLoop(rows[i], Map(filter));
      if matches {
        matched := matched + [rows[i]];
      }
    }
    assert rows[..|rows|] == rows;
  }

  // ----- steps of the loops -----

  lemma EverythingFound(t: Coll, found: Result<seq<Document>>)
    requires TidbFind(t, FindRequest(map[], NO_OPTIONS), found)
    ensures found == Ok(Scan(t))
  {
    var req := FindRequest(map[], NO_OPTIONS);
    assert BuildFindSQL(req) == Ok(Query(None, 0));
    assert Rows(t, Query(None, 0)) == Scan(t);
    FilterAll(Passes(Map(map[])), Scan(t));
  }

  lemma NextDelete(t: Coll, snapshot: seq<Document>, ops: seq<DeleteModel>, i: nat, first: Changed)
    requires i < |ops| && DeleteEach(t, Victims(snapshot, ops[i])) == first
    ensures TidbDeletes(t, snapshot, ops[i..]) ==
            if !first.ok then Removed(first.coll, false, 0)
            else Counted(|Victims(snapshot, ops[i])|, TidbDeletes(first.coll, snapshot, ops[i + 1..]))
  {
    assert ops[i..][0] == ops[i] && ops[i..][1..] == ops[i + 1..];
  }

  function Counted(n: nat, r: Removed): Removed {
    Removed(r.coll, r.ok, n + r.count)
  }

  lemma NextTarget(snapshot: seq<Document>, op: UpdateModel, i: nat)
    requires i < |snapshot|
    ensures var targets, later := Targets(snapshot[i..], op), Targets(snapshot[i + 1..], op);
            if !Matching.Matches(snapshot[i], Map(op.filter)) then targets == later
            else targets == [snapshot[i]] + if op.multi then later else []
  {
    assert snapshot[i..][0] == snapshot[i] && snapshot[i..][1..] == snapshot[i + 1..];
  }

  lemma NextVictim(snapshot: seq<Document>, op: DeleteModel, i: nat)
    requires i < |snapshot|
    ensures var victims, later := Victims(snapshot[i..], op), Victims(snapshot[i + 1..], op);
            if !Matching.Matches(snapshot[i], Map(op.filter)) then victims == later
            else victims == [snapshot[i]] + if op.limit == 1 then [] else later
  {
    assert snapshot[i..][0] == snapshot[i] && snapshot[i..][1..] == snapshot[i + 1..];
  }

  /** Whatever the remaining replaces do from `c` completes the update. */
  ghost predicate ReplacesLeadOn(start: Coll, all: seq<Document>, u: Document, c: Coll, targets: seq<Document>) {
    forall next, ok :: ReplaceEach(c, targets, u, next, ok) ==> ReplaceEach(start, all, u, next, ok)
  }

  lemma MoreReplaces(start: Coll, all: seq<Document>, u: Document, c: Coll, targets: seq<Document>, doc: Document)
    requires ReplacesLeadOn(start, all, u, c, targets) && targets != []
    requires Replaceable(targets[0], u, doc)
    ensures ReplacesLeadOn(start, all, u, c[DocumentIDKey(doc).value := doc], targets[1..])
  {
    forall next, ok | ReplaceEach(c[DocumentIDKey(doc).value := doc], targets[1..], u, next, ok)
      ensures ReplaceEach(start, all, u, next, ok)
    {
      assert ReplaceEach(c, targets, u, next, ok);
    }
  }

  lemma RefusedReplace(start: Coll, all: seq<Document>, u: Document, c: Coll, targets: seq<Document>)
    requires ReplacesLeadOn(start, all, u, c, targets) && targets != [] && Refused(targets[0], u)
    ensures ReplaceEach(start, all, u, c, false)
  {
    if Succeeds(u) {
      var next :| CanBecome(targets[0], u, next) && DocumentIDKey(next).Err?;
      assert ReplaceEach(c, targets, u, c, false);
    }
    assert ReplaceEach(c, targets, u, c, false);
  }

  lemma LastReplace(start: Coll, all: seq<Document>, u: Document, c: Coll)
    requires ReplacesLeadOn(start, all, u, c, [])
    ensures ReplaceEach(start, all, u, c, true)
  {
    assert ReplaceEach(c, [], u, c, true);
  }

  /** Whatever the remaining updates do from `c` completes the request. */
  ghost predicate UpdatesLeadOn(
      start: Coll, snapshot: seq<Document>, all: seq<UpdateModel>, c: Coll, ops: seq<UpdateModel>, total: UpdateResult)
  {
    forall next, rest ::
      TidbUpdates(c, snapshot, ops, next, rest) ==> TidbUpdates(start, snapshot, all, next, Chain(total, rest))
  }

  lemma StartUpdates(c: Coll, snapshot: seq<Document>, ops: seq<UpdateModel>)
    ensures UpdatesLeadOn(c, snapshot, ops, c, ops, NOTHING)
  {
    forall next, rest | TidbUpdates(c, snapshot, ops, next, rest)
      ensures TidbUpdates(c, snapshot, ops, next, Chain(NOTHING, rest))
    {
      PlusAssociative(NOTHING, NOTHING, rest);
    }
  }

  lemma MoreUpdates(
      start: Coll, snapshot: seq<Document>, all: seq<UpdateModel>, c: Coll, ops: seq<UpdateModel>,
      mid: Coll, r: UpdateResult, total: UpdateResult)
    requires ops != [] && TidbUpdate(c, snapshot, ops[0], mid, Ok(r))
    requires UpdatesLeadOn(start, snapshot, all, c, ops, total)
    ensures UpdatesLeadOn(start, snapshot, all, mid, ops[1..], Plus(total, r))
  {
    forall next, rest | TidbUpdates(mid, snapshot, ops[1..], next, rest)
      ensures TidbUpdates(start, snapshot, all, next, Chain(Plus(total, r), rest))
    {
      assert TidbUpdates(c, snapshot, ops, next, Chain(r, rest));
      PlusAssociative(total, r, rest);
    }
  }

  lemma FailedUpdate(
      start: Coll, snapshot: seq<Document>, all: seq<UpdateModel>, c: Coll, ops: seq<UpdateModel>,
      next: Coll, r: Result<UpdateResult>, total: UpdateResult)
    requires UpdatesLeadOn(start, snapshot, all, c, ops, total) && ops != []
    requires r.Err? && TidbUpdate(c, snapshot, ops[0], next, r)
    ensures TidbUpdates(start, snapshot, all, next, r)
  {
    assert TidbUpdates(c, snapshot, ops, next, r);
  }

  lemma LastUpdate(start: Coll, snapshot: seq<Document>, all: seq<UpdateModel>, c: Coll, total: UpdateResult)
    requires UpdatesLeadOn(start, snapshot, all, c, [], total)
    ensures TidbUpdates(start, snapshot, all, c, Ok(total))
  {
    assert TidbUpdates(c, snapshot, [], c, Ok(NOTHING));
    assert TidbUpdates(start, snapshot, all, c, Chain(total, Ok(NOTHING)));
    PlusNothing(total);
  }
}
