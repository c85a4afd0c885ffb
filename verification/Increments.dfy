/** Two concurrent `$inc`s of one field: exactly when every schedule on TiDB is serial
    (internal/backend/tidb/store.go:256-287). */
module Increments {
  import opened Bson
  import opened Collections
  import opened Interleaving
  import Invariants
  import opened Keys
  import Matching
  import Paths
  import opened Refinement
  import opened Schedules
  import opened Updates

  function Bump(field: string, amount: Value): Document {
    OneField("$inc", field, amount)
  }

  function With(doc: Document, field: string, v: Value): Document {
    doc[field := v]
  }

  function Bumped(doc: Document, field: string, amount: Value): Document {
    With(doc, field, AddNumbers(Lookup(doc, field), amount))
  }

  lemma BumpOutcome(doc: Document, field: string, amount: Value, next: Document)
    ensures CanBecome(doc, Bump(field, amount), next) <==> next == Bumped(doc, field, amount)
    ensures Succeeds(Bump(field, amount))
  {
    OneFieldStep("$inc", field, amount);
    var u, step := Bump(field, amount), Step("$inc", Inc, field, amount);
    assert OperatorNamed("$inc") == Inc;
    assert ApplyStep(doc, step, 0) == Bumped(doc, field, amount);
    forall now ensures Outcome(doc, u, now, next) <==> next == Bumped(doc, field, amount) {
      OneFieldOutcome(doc, "$inc", field, amount, now, next);
    }
    assert Outcome(doc, u, 0, next) <==> next == Bumped(doc, field, amount);
  }

  lemma BumpKeepsKey(doc: Document, field: string, amount: Value)
    requires field != "_id"
    ensures DocumentIDKey(Bumped(doc, field, amount)) == DocumentIDKey(doc)
  {
  }

  lemma BumpKeepsKeys(t: Coll, keys: set<string>, field: string, amount: Value)
    requires KeyInvariant(t) && field != "_id"
    ensures KeepsKeys(t, keys, Bump(field, amount))
  {
    forall k, doc | k in keys && k in t && CanBecome(t[k], Bump(field, amount), doc) ensures DocumentIDKey(doc) == Ok(k) {
      BumpOutcome(t[k], field, amount, doc);
      BumpKeepsKey(t[k], field, amount);
      assert DocumentIDKey(t[k]) == Ok(k);
    }
  }

  /** The filter does not read the field. */
  ghost predicate Ignores(filter: Document, field: string) {
    forall doc: Document, v :: Matching.Matches(With(doc, field, v), Map(filter)) <==> Matching.Matches(doc, Map(filter))
  }

  /** An `$inc` of `field` under a filter that does not read it. */
  ghost predicate IsBump(op: UpdateModel, field: string, amount: Value) {
    op.update == Bump(field, amount) && !op.upsert && Ignores(op.filter, field) && field != "_id"
  }

  /** No path of the filter is the field or starts at it. */
  predicate Avoids(filter: Value, field: string)
    decreases filter, 0, 0
  {
    filter.Map? ==> forall key | key in filter.m :: EntryAvoids(key, filter.m[key], field)
  }

  predicate EntryAvoids(key: string, want: Value, field: string)
    decreases want, 2
  {
    if key in {"$and", "$or", "$nor"} then want.Array? ==> forall i | 0 <= i < |want.a| :: Avoids(want.a[i], field)
    else key in {"$expr", "$jsonSchema", "$text", "$where"} || (key != field && Paths.Split(key)[0] != field)
  }

  /** Such a filter does not read the field. */
  lemma AvoidingIgnores(filter: Document, field: string)
    requires Avoids(Map(filter), field)
    ensures Ignores(filter, field)
  {
    forall doc: Document, v
      ensures Matching.Matches(With(doc, field, v), Map(filter)) <==> Matching.Matches(doc, Map(filter))
    {
      SameMatch(doc, field, v, Map(filter));
    }
  }

  lemma {:induction false} SameMatch(doc: Document, field: string, v: Value, filter: Value)
    requires Avoids(filter, field)
    ensures Matching.Matches(With(doc, field, v), filter) <==> Matching.Matches(doc, filter)
    decreases filter, 0, 0
  {
    if filter.Map? {
      forall key | key in filter.m
        ensures Matching.MatchesEntry(With(doc, field, v), key, filter.m[key]) <==>
                Matching.MatchesEntry(doc, key, filter.m[key])
      {
        SameEntry(doc, field, v, key, filter.m[key]);
      }
    }
  }

  lemma {:induction false} SameEntry(doc: Document, field: string, v: Value, key: string, want: Value)
    requires EntryAvoids(key, want, field)
    ensures Matching.MatchesEntry(With(doc, field, v), key, want) <==> Matching.MatchesEntry(doc, key, want)
    decreases want, 2
  {
    if key in {"$and", "$or", "$nor"} {
      if want.Array? {
        forall i | 0 <= i < |want.a|
          ensures Matching.Matches(With(doc, field, v), want.a[i]) <==> Matching.Matches(doc, want.a[i])
        {
          SameMatch(doc, field, v, want.a[i]);
        }
      }
    } else if key !in {"$expr", "$jsonSchema", "$text", "$where"} {
      SamePath(doc, field, v, key);
    }
  }

  lemma SamePath(doc: Document, field: string, v: Value, path: string)
    requires path != field && Paths.Split(path)[0] != field
    ensures Paths.ValueByPath(With(doc, field, v), path) == Paths.ValueByPath(doc, path)
  {
    var parts := Paths.Split(path);
    assert Paths.Children(Map(With(doc, field, v)), parts[0]) == Paths.Children(Map(doc), parts[0]);
    assert Paths.Resolve(Map(With(doc, field, v)), parts) == Paths.Resolve(Map(doc), parts);
  }

  function Both(u: UpdateModel, w: UpdateModel): seq<Op> {
    [Change(u), Change(w)]
  }

  // ----- separate keys: every schedule is serial -----

  lemma BumpLeavesAlone(t: Coll, u: UpdateModel, w: UpdateModel, field: string, a: Value)
    requires IsBump(u, field, a) && Ignores(w.filter, field)
    requires Elements(WriteKeys(t, u)) !! Elements(WriteKeys(t, w))
    ensures LeavesAlone(t, Change(u), Change(w))
  {
    forall k | k in OpKeys(t, Change(u)) && k in t
      ensures k !in OpKeys(t, Change(w))
      ensures forall after :: Effect(Change(u), t[k], after) ==> Unnoticed(t[k], after, Change(w))
    {
      assert k in Elements(WriteKeys(t, u));
      forall after | Effect(Change(u), t[k], after) ensures Unnoticed(t[k], after, Change(w)) {
        BumpOutcome(t[k], field, a, after.get);
        assert after.get == With(t[k], field, AddNumbers(Lookup(t[k], field), a));
      }
    }
  }

  lemma BumpsIndependent(t: Coll, u: UpdateModel, w: UpdateModel, field: string, a: Value, b: Value)
    requires KeyInvariant(t) && IsBump(u, field, a) && IsBump(w, field, b)
    requires Elements(WriteKeys(t, u)) !! Elements(WriteKeys(t, w))
    ensures Independent(t, Both(u, w)) && Keyed(t, Both(u, w))
  {
    BumpLeavesAlone(t, u, w, field, a);
    BumpLeavesAlone(t, w, u, field, b);
    BumpKeepsKeys(t, Elements(WriteKeys(t, u)), field, a);
    BumpKeepsKeys(t, Elements(WriteKeys(t, w)), field, b);
  }

  // ----- a shared key: one schedule is not -----

  /** One of the updates alone. */
  lemma OneBump(t: Coll, op: UpdateModel, field: string, amount: Value, next: Coll, r: UpdateResult)
    requires KeyInvariant(t) && IsBump(op, field, amount) && TidbUpdate(t, Scan(t), op, next, Ok(r))
    ensures next.Keys == t.Keys
    ensures forall k :: k in t ==> next[k] == if k in WriteKeys(t, op) then Bumped(t[k], field, amount) else t[k]
  {
    var keys := WriteKeys(t, op);
    TargetsByKey(t, ScanOrder(t.Keys), op);
    BumpKeepsKeys(t, Elements(keys), field, amount);
    assert |DocsAt(t, keys)| == |keys|;
    if keys != [] {
      ReplacesRewrite(t, keys, op.update, next);
      RewriteBumps(t, keys, field, amount, next);
    }
  }

  lemma RewriteBumps(t: Coll, keys: seq<string>, field: string, amount: Value, next: Coll)
    requires Rewrites(t, Elements(keys), Bump(field, amount), next)
    ensures forall k :: k in t ==> next[k] == if k in keys then Bumped(t[k], field, amount) else t[k]
  {
    forall k | k in t ensures next[k] == if k in keys then Bumped(t[k], field, amount) else t[k] {
      assert if k in Elements(keys) then CanBecome(t[k], Bump(field, amount), next[k]) else next[k] == t[k];
      BumpOutcome(t[k], field, amount, next[k]);
    }
  }

  /** A table in which some documents have been bumped matches as before. */
  lemma SameMatches(t: Coll, keys: seq<string>, field: string, amount: Value, next: Coll, other: UpdateModel)
    requires next.Keys == t.Keys && Ignores(other.filter, field)
    requires forall k :: k in t ==> next[k] == if k in keys then Bumped(t[k], field, amount) else t[k]
    ensures WriteKeys(next, other) == WriteKeys(t, other)
  {
    forall k | k in t
      ensures Matching.Matches(next[k], Map(other.filter)) <==> Matching.Matches(t[k], Map(other.filter))
    {
      assert next[k] == if k in keys then With(t[k], field, AddNumbers(Lookup(t[k], field), amount)) else t[k];
    }
    assert MatchSet(next, other.filter) == MatchSet(t, other.filter);
    OpKeysMatch(t, Change(other));
    OpKeysByMatches(t, next, Change(other));
  }

  /** One after the other, both count. */
  lemma SerialBumpsTwice(
      t: Coll, u: UpdateModel, w: UpdateModel, field: string, a: Value, b: Value,
      x: Result<UpdateResult>, y: Result<UpdateResult>, end: Coll, k: string)
    requires KeyInvariant(t) && IsBump(u, field, a) && IsBump(w, field, b) && x.Ok? && y.Ok?
    requires k in t && k in WriteKeys(t, u) && k in WriteKeys(t, w)
    requires Serial(t, [Job(Change(u), Updated(x)), Job(Change(w), Updated(y))], end)
    ensures RowAt(end, k) == Some(Bumped(Bumped(t[k], field, a), field, b))
  {
    hide TidbUpdate, Serial;
    var mid := SerialPair(t, Job(Change(u), Updated(x)), Job(Change(w), Updated(y)), end);
    OneBump(t, u, field, a, mid, x.value);
    SameMatches(t, WriteKeys(t, u), field, a, mid, w);
    Invariants.TidbUpdateKeeps(t, Scan(t), u, mid, x);
    OneBump(mid, w, field, b, end, y.value);
  }

  lemma BumpsDiffer(doc: Document, field: string, a: Value, b: Value)
    requires IsNumber(Lookup(doc, field)) && ToFloat(a) != 0.0
    ensures Bumped(doc, field, b) != Bumped(Bumped(doc, field, a), field, b)
    ensures Bumped(doc, field, b) != Bumped(Bumped(doc, field, b), field, a)
  {
    hide Bumped;
    BumpTwice(doc, field, a, b);
    BumpTwice(doc, field, b, a);
  }

  lemma BumpTwice(doc: Document, field: string, a: Value, b: Value)
    requires IsNumber(Lookup(doc, field))
    ensures var x := ToFloat(Lookup(doc, field));
            && Lookup(Bumped(doc, field, b), field) == Double(x + ToFloat(b))
            && Lookup(Bumped(Bumped(doc, field, a), field, b), field) == Double(x + ToFloat(a) + ToFloat(b))
  {
    assert Lookup(Bumped(doc, field, a), field) == Double(ToFloat(Lookup(doc, field)) + ToFloat(a));
  }

  lemma BumpReady(t: Coll, op: UpdateModel, field: string, amount: Value)
    requires KeyInvariant(t) && IsBump(op, field, amount)
    ensures Ready(t, Change(op))
  {
    BumpKeepsKeys(t, Elements(WriteKeys(t, op)), field, amount);
    BumpOutcome(map[], field, amount, map[]);
  }

  /** The run in which the second overwrites the first has no serial order. */
  lemma OverlapLoses(t: Coll, u: UpdateModel, w: UpdateModel, field: string, a: Value, b: Value, k: string)
    requires KeyInvariant(t) && IsBump(u, field, a) && IsBump(w, field, b)
    requires k in t && k in WriteKeys(t, u) && k in WriteKeys(t, w)
    requires IsNumber(Lookup(t[k], field)) && ToFloat(a) != 0.0
    ensures !AlwaysSerial(t, Both(u, w))
  {
    hide Serial, WriteKeys, IsBump, IsRun, Bumped;
    var ops := Both(u, w);
    BumpReady(t, u, field, a);
    BumpReady(t, w, field, b);
    var states, schedule, last := OneAfterTheOther(t, ops, 0);
    BumpsDiffer(t[k], field, a, b);
    assert LastWins(t, ops[0], ops[1], k, RowAt(last.table, k));
    LastBump(t, u, w, field, b, k, RowAt(last.table, k));
    if HasSerial(t, ops, last) {
      LostInOrder(t, u, w, field, a, b, last, k);
    }
  }

  lemma LastBump(
      t: Coll, u: UpdateModel, w: UpdateModel, field: string, b: Value, k: string, row: Option<Document>)
    requires IsBump(w, field, b) && k in t && k in WriteKeys(t, w) && LastWins(t, Change(u), Change(w), k, row)
    ensures row == Some(Bumped(t[k], field, b))
  {
    hide Bumped, WriteKeys;
    BumpOutcome(t[k], field, b, row.get);
  }

  lemma LostInOrder(
      t: Coll, u: UpdateModel, w: UpdateModel, field: string, a: Value, b: Value, last: State, k: string)
    requires KeyInvariant(t) && IsBump(u, field, a) && IsBump(w, field, b)
    requires k in t && k in WriteKeys(t, u) && k in WriteKeys(t, w)
    requires last.phases == [AfterWrite(t, Change(u)), AfterWrite(t, Change(w))] && HasSerial(t, Both(u, w), last)
    ensures || RowAt(last.table, k) == Some(Bumped(Bumped(t[k], field, a), field, b))
            || RowAt(last.table, k) == Some(Bumped(Bumped(t[k], field, b), field, a))
  {
    hide Serial, WriteKeys, IsBump, Bumped, HasSerial;
    SerialOfTwo(t, Both(u, w), last);
    var x, y := ResultOf(last.phases[0]), ResultOf(last.phases[1]);
    if Serial(t, [Job(Change(u), Updated(x)), Job(Change(w), Updated(y))], last.table) {
      SerialBumpsTwice(t, u, w, field, a, b, x, y, last.table, k);
    } else {
      SerialBumpsTwice(t, w, u, field, b, a, y, x, last.table, k);
    }
  }

  /** Two concurrent increments of a field that neither filter reads, the first not by
      zero and the field a number where both match, are serial under every schedule
      exactly when they write different documents. */
  lemma IncrementsSerialExactly(t: Coll, u: UpdateModel, w: UpdateModel, field: string, a: Value, b: Value)
    requires KeyInvariant(t) && IsBump(u, field, a) && IsBump(w, field, b) && ToFloat(a) != 0.0
    requires forall k :: k in MatchSet(t, u.filter) && k in MatchSet(t, w.filter) ==> IsNumber(Lookup(t[k], field))
    ensures AlwaysSerial(t, Both(u, w)) <==> Elements(WriteKeys(t, u)) !! Elements(WriteKeys(t, w))
  {
    hide AlwaysSerial, IsBump, WriteKeys;
    if Elements(WriteKeys(t, u)) !! Elements(WriteKeys(t, w)) {
      BumpsIndependent(t, u, w, field, a, b);
      IndependentAlwaysSerial(t, Both(u, w));
    } else {
      var k :| k in Elements(WriteKeys(t, u)) && k in Elements(WriteKeys(t, w));
      OpKeysMatch(t, Change(u));
      OpKeysMatch(t, Change(w));
      OverlapLoses(t, u, w, field, a, b, k);
    }
  }
}
