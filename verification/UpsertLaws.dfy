/** The document an upsert creates when nothing matches, on either store
    (internal/backend/memory/memory.go:196-211, internal/backend/tidb/store.go:288-302). */
module UpsertLaws {
  import opened Bson
  import opened Collections
  import FindAndModify
  import opened Keys
  import opened Updates

  /** The row is `base` with, when that has no `_id`, a generated one. */
  ghost predicate CompletesId(base: Document, row: Document) {
    && "_id" in row
    && (forall f :: f != "_id" ==> Field(row, f) == Field(base, f))
    && if "_id" in base then row["_id"] == base["_id"] else IsGenerated(row["_id"])
  }

  /** Generated from the clock. */
  ghost predicate IsGenerated(id: Value) {
    exists now :: id == Str("upsert-" + FormatInt(now))
  }

  /** Exactly one row is written, under its own key, and it is reported as one document
      matched, modified and upserted. */
  ghost predicate FilesOne(c: Coll, row: Document, next: Coll, r: UpdateResult) {
    && DocumentIDKey(row).Ok? && next == c[DocumentIDKey(row).value := row]
    && r.matched == 1 && r.modified == 1 && |r.upserted| == 1
    && r.upserted[0].Keys == {"index", "_id"} && r.upserted[0]["index"] == Int32(0)
    && "_id" in row && r.upserted[0]["_id"] == row["_id"]
  }

  lemma OneRow(c: Coll, op: UpdateModel, next: Coll, r: UpdateResult) returns (base: Document, row: Document)
    requires Upserts(c, op, next, r)
    ensures CanBecome(op.filter, op.update, base) && CompletesId(base, row) && FilesOne(c, row, next, r)
  {
    hide CanBecome;
    row :|
      && CanUpsert(op, row)
      && DocumentIDKey(row).Ok?
      && next == c[DocumentIDKey(row).value := row]
      && r == UpsertResult(row);
    var now;
    base, now :| CanBecome(op.filter, op.update, base) && row == WithId(base, now);
    assert "_id" !in base ==> row["_id"] == Str("upsert-" + FormatInt(now));
  }

  /** In memory an upsert without a match writes one row: what the update makes of the
      filter, with an `_id` generated only when that leaves none. */
  lemma UpsertInMemory(c: Coll, op: UpdateModel, next: Coll, r: UpdateResult) returns (base: Document, row: Document)
    requires MatchSet(c, op.filter) == {} && op.upsert && MemUpdate(c, op, next, r)
    ensures CanBecome(op.filter, op.update, base) && CompletesId(base, row) && FilesOne(c, row, next, r)
  {
    hide Upserts;
    base, row := OneRow(c, op, next, r);
  }

  /** So does one on TiDB. */
  lemma UpsertOnTidb(t: Coll, op: UpdateModel, next: Coll, r: UpdateResult) returns (base: Document, row: Document)
    requires MatchSet(t, op.filter) == {} && op.upsert && TidbUpdate(t, Scan(t), op, next, Ok(r))
    ensures CanBecome(op.filter, op.update, base) && CompletesId(base, row) && FilesOne(t, row, next, r)
  {
    hide Upserts, Targets, Scan;
    FindAndModify.NoTargets(t, op);
    base, row := OneRow(t, op, next, r);
  }

  /** The fields of the filter that no operator of the update touches are in the row. */
  lemma FilterFieldsStay(filter: Document, u: Document, base: Document, row: Document, f: string)
    requires CanBecome(filter, u, base) && CompletesId(base, row) && f in filter
    requires u == map[] || (OperatorStyle(u) && forall s :: IsStepOf(u, s) ==> f !in Touches(s))
    ensures f in row && row[f] == filter[f]
  {
    var now :| Outcome(filter, u, now, base);
    if u != map[] {
      var steps :| Linearizes(u, steps) && base == Run(filter, steps, now);
      forall s | s in steps ensures f !in Touches(s) {
        assert IsStepOf(u, s);
      }
      RunKeeps(filter, steps, now, f);
    }
    assert Field(base, f) == Some(filter[f]);
    assert f != "_id" ==> Field(row, f) == Field(base, f);
  }

  /** What an operator stores is in the row too; for instance the field of a `$set`. */
  lemma SetFieldIsIn(filter: Document, f: string, v: Value, base: Document, row: Document)
    requires CanBecome(filter, OneField("$set", f, v), base) && CompletesId(base, row)
    ensures f in row && row[f] == v
  {
    var now :| Outcome(filter, OneField("$set", f, v), now, base);
    assert OperatorNamed("$set") == Set;
    OneFieldOutcome(filter, "$set", f, v, now, base);
    assert base == filter[f := v];
    assert f != "_id" ==> Field(row, f) == Field(base, f);
  }

  /** A replacement gives the row its fields, and the `_id` of the filter if it has none. */
  lemma ReplacementIsRow(filter: Document, u: Document, base: Document, row: Document, f: string)
    requires CanBecome(filter, u, base) && CompletesId(base, row) && !OperatorStyle(u) && u != map[]
    ensures f in u ==> f in row && row[f] == u[f]
    ensures f in row && f !in u ==> f == "_id"
    ensures "_id" !in u && "_id" in filter && filter["_id"] != Null ==> row["_id"] == filter["_id"]
  {
    assert f != "_id" ==> Field(row, f) == Field(base, f);
  }

  /** A filter that names an `_id` files the row under the key of that `_id` and reports
      it, when the update does not name `_id`. */
  lemma FilterIdIsKey(
      c: Coll, filter: Document, u: Document, base: Document, row: Document, next: Coll, r: UpdateResult)
    requires CanBecome(filter, u, base) && CompletesId(base, row) && FilesOne(c, row, next, r)
    requires IdSafe(u) && "_id" in filter && filter["_id"] != Null
    ensures row["_id"] == filter["_id"] && r.upserted[0]["_id"] == filter["_id"]
    ensures ValueKey(filter["_id"]).Ok? && ValueKey(filter["_id"]).value in next
    ensures next[ValueKey(filter["_id"]).value] == row
  {
    var now :| Outcome(filter, u, now, base);
    UpdateKeepsId(filter, u, now, base);
    assert Field(base, "_id") == Some(filter["_id"]);
  }

  /** An `_id` is generated exactly when neither the filter nor the update leaves one. */
  lemma GeneratedOnlyIfNone(filter: Document, u: Document, base: Document, row: Document)
    requires CanBecome(filter, u, base) && CompletesId(base, row) && IdSafe(u) && u != map[]
    ensures "_id" !in filter ==> IsGenerated(row["_id"])
  {
    var now :| Outcome(filter, u, now, base);
    if "_id" !in filter && OperatorStyle(u) {
      var steps :| Linearizes(u, steps) && base == Run(filter, steps, now);
      forall s | s in steps ensures "_id" !in Touches(s) {
        assert IsStepOf(u, s);
      }
      RunKeeps(filter, steps, now, "_id");
      assert Field(base, "_id") == None;
    }
  }
}
