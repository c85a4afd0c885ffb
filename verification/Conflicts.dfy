/** A concurrent update and delete, or two concurrent deletes: exactly when every schedule
    on TiDB is serial (internal/backend/tidb/store.go:256-335). */
module Conflicts {
  import opened Bson
  import opened Collections
  import opened Interleaving
  import Invariants
  import opened Keys
  import opened Matching
  import opened Refinement
  import opened Schedules
  import opened Updates

  // ----- separate keys -----

  /** What the update makes of the documents it writes matches the filter only if they
      did before. */
  ghost predicate BringsNoneUnder(t: Coll, u: UpdateModel, filter: Document) {
    forall k, doc :: k in OpKeys(t, Change(u)) && k in t && CanBecome(t[k], u.update, doc) && Matches(doc, Map(filter)) ==>
      Matches(t[k], Map(filter))
  }

  /** A match that the request does not write is one beyond its first. */
  lemma MatchNotWritten(t: Coll, op: Op, k: string)
    requires k in t && Matches(t[k], Map(FilterOf(op))) && k !in OpKeys(t, op)
    ensures FirstOnly(op)
  {
    OpKeysInOrder(t, op);
    assert k in MatchSet(t, FilterOf(op));
  }

  lemma ChangeLeavesAlone(t: Coll, u: UpdateModel, d: DeleteModel)
    requires BringsNoneUnder(t, u, d.filter)
    requires Elements(OpKeys(t, Change(u))) !! Elements(OpKeys(t, Remove(d)))
    ensures LeavesAlone(t, Change(u), Remove(d))
  {
    forall k | k in OpKeys(t, Change(u)) && k in t
      ensures k !in OpKeys(t, Remove(d))
      ensures forall after :: Effect(Change(u), t[k], after) ==> Unnoticed(t[k], after, Remove(d))
    {
      assert k in Elements(OpKeys(t, Change(u)));
      if Matches(t[k], Map(d.filter)) {
        MatchNotWritten(t, Remove(d), k);
      }
    }
  }

  /** A delete never brings a document under a filter. */
  lemma RemoveLeavesAlone(t: Coll, d: DeleteModel, other: Op)
    requires Elements(OpKeys(t, Remove(d))) !! Elements(OpKeys(t, other))
    ensures LeavesAlone(t, Remove(d), other)
  {
    forall k | k in OpKeys(t, Remove(d)) && k in t
      ensures k !in OpKeys(t, other)
      ensures forall after :: Effect(Remove(d), t[k], after) ==> Unnoticed(t[k], after, other)
    {
      assert k in Elements(OpKeys(t, Remove(d)));
      if Matches(t[k], Map(FilterOf(other))) {
        MatchNotWritten(t, other, k);
      }
    }
  }

  // ----- one request alone -----

  /** A delete takes out as many documents as it answers. */
  lemma RemovesItsCount(t: Coll, d: DeleteModel, next: Coll, n: nat)
    requires KeyInvariant(t) && OpRuns(t, Remove(d), next, Deleted(Ok(n)))
    ensures next == t - Elements(OpKeys(t, Remove(d)))
    ensures n == |OpKeys(t, Remove(d))| == |Elements(OpKeys(t, Remove(d)))|
    ensures Elements(OpKeys(t, Remove(d))) <= t.Keys
  {
    hide TidbDeletes;
    OpKeysMatch(t, Remove(d));
    ElementCount(OpKeys(t, Remove(d)));
    OneDelete(t, Scan(t), d, OpKeys(t, Remove(d)));
  }

  /** A key-keeping update without upsert changes no keys. */
  lemma ChangeKeepsRows(t: Coll, u: UpdateModel, next: Coll, r: UpdateResult)
    requires !u.upsert && KeepsKeys(t, MatchSet(t, u.filter), u.update)
    requires OpRuns(t, Change(u), next, Updated(Ok(r)))
    ensures next.Keys == t.Keys
  {
    hide TidbUpdate, CanBecome;
    OpKeysMatch(t, Change(u));
    UpdateRefines(t, u, next, r);
  }

  lemma KeepsFewerKeys(t: Coll, gone: set<string>, u: UpdateModel)
    requires KeepsKeys(t, MatchSet(t, u.filter), u.update)
    ensures KeepsKeys(t - gone, MatchSet(t - gone, u.filter), u.update)
  {
    var next := t - gone;
    forall k, doc | k in MatchSet(next, u.filter) && CanBecome(next[k], u.update, doc) ensures DocumentIDKey(doc) == Ok(k) {
      assert next[k] == t[k] && k in MatchSet(t, u.filter);
    }
  }

  // ----- a shared key -----

  /** When the answers of a delete add up, it took its documents from those that are left. */
  lemma CountsTell(all: set<string>, taken: set<string>, some: set<string>, left: set<string>)
    requires taken <= all && some <= all && left <= some && all - taken == all - left
    requires |taken| == |some|
    ensures left == some
  {
    assert taken == left;
    assert |some - left| == 0;
  }

  /** The run in which the delete goes before the writes of the update it shares a
      document with. */
  lemma RevivedKeys(t: Coll, u: UpdateModel, d: DeleteModel, table: Coll)
    requires forall k :: LastWins(t, Remove(d), Change(u), k, RowAt(table, k))
    ensures table.Keys == t.Keys - (Elements(OpKeys(t, Remove(d))) - Elements(OpKeys(t, Change(u))))
  {
    hide OpKeys, CanBecome;
    OpKeysMatch(t, Remove(d));
    OpKeysMatch(t, Change(u));
    forall k ensures k in table <==>
                     k in t && !(k in OpKeys(t, Remove(d)) && k !in OpKeys(t, Change(u)))
    {
      assert LastWins(t, Remove(d), Change(u), k, RowAt(table, k));
    }
  }

  /** First the update, then the delete: the answer of the delete is too large. */
  lemma NotChangeFirst(t: Coll, u: UpdateModel, d: DeleteModel, last: State, k: string)
    requires KeyInvariant(t) && !u.upsert && KeepsKeys(t, MatchSet(t, u.filter), u.update)
    requires k in OpKeys(t, Change(u)) && k in OpKeys(t, Remove(d))
    requires last.phases == [AfterWrite(t, Change(u)), AfterWrite(t, Remove(d))]
    requires last.table.Keys == t.Keys - (Elements(OpKeys(t, Remove(d))) - Elements(OpKeys(t, Change(u))))
    ensures !Serial(t, [Job(Change(u), AnswerOf(Change(u), last.phases[0])),
                        Job(Remove(d), AnswerOf(Remove(d), last.phases[1]))], last.table)
  {
    hide OpRuns, OpKeys, Serial, KeepsKeys, KeyInvariant;
    var x, y := Job(Change(u), AnswerOf(Change(u), last.phases[0])), Job(Remove(d), AnswerOf(Remove(d), last.phases[1]));
    var some, mine := Elements(OpKeys(t, Remove(d))), Elements(OpKeys(t, Change(u)));
    assert k in some && k in mine;
    OpKeysMatch(t, Remove(d));
    ElementCount(OpKeys(t, Remove(d)));
    if Serial(t, [x, y], last.table) {
      var mid := SerialPair(t, x, y, last.table);
      ChangeKeepsRows(t, u, mid, x.answer.update.value);
      KeyedAfterChange(t, u, mid, x.answer);
      RemovesItsCount(mid, d, last.table, |OpKeys(t, Remove(d))|);
      CountsTell(t.Keys, Elements(OpKeys(mid, Remove(d))), some, some - mine);
    }
  }

  lemma KeyedAfterChange(t: Coll, u: UpdateModel, mid: Coll, answer: Answer)
    requires KeyInvariant(t) && OpRuns(t, Change(u), mid, answer)
    ensures KeyInvariant(mid)
  {
    Invariants.TidbUpdateKeeps(t, Scan(t), u, mid, answer.update);
  }

  /** First the delete, then the update: the shared document is gone. */
  lemma NotRemoveFirst(t: Coll, u: UpdateModel, d: DeleteModel, last: State, k: string)
    requires KeyInvariant(t) && !u.upsert && KeepsKeys(t, MatchSet(t, u.filter), u.update)
    requires k in OpKeys(t, Change(u)) && k in OpKeys(t, Remove(d))
    requires last.phases == [AfterWrite(t, Change(u)), AfterWrite(t, Remove(d))] && k in last.table
    ensures !Serial(t, [Job(Remove(d), AnswerOf(Remove(d), last.phases[1])),
                        Job(Change(u), AnswerOf(Change(u), last.phases[0]))], last.table)
  {
    hide OpRuns, OpKeys, Serial, KeepsKeys, KeyInvariant;
    var x, y := Job(Change(u), AnswerOf(Change(u), last.phases[0])), Job(Remove(d), AnswerOf(Remove(d), last.phases[1]));
    assert k in Elements(OpKeys(t, Remove(d)));
    if Serial(t, [y, x], last.table) {
      var mid := SerialPair(t, y, x, last.table);
      RemovesItsCount(t, d, mid, |OpKeys(t, Remove(d))|);
      KeepsFewerKeys(t, Elements(OpKeys(t, Remove(d))), u);
      ChangeKeepsRows(mid, u, last.table, x.answer.update.value);
    }
  }

  lemma KeepsWritten(t: Coll, u: UpdateModel)
    requires KeepsKeys(t, MatchSet(t, u.filter), u.update)
    ensures OpKeyed(t, Change(u)) || u.upsert
    ensures Succeeds(u.update) && !u.upsert ==> Ready(t, Change(u))
  {
    OpKeysMatch(t, Change(u));
  }

  /** A document that both write survives some schedule and no serial order. */
  lemma SharedKeySurvives(t: Coll, u: UpdateModel, d: DeleteModel, k: string)
    requires KeyInvariant(t) && Succeeds(u.update) && !u.upsert && KeepsKeys(t, MatchSet(t, u.filter), u.update)
    requires k in OpKeys(t, Change(u)) && k in OpKeys(t, Remove(d))
    ensures !AlwaysSerial(t, [Change(u), Remove(d)])
  {
    hide OpKeys, Serial, HasSerial, IsRun, KeepsKeys;
    var ops := [Change(u), Remove(d)];
    KeepsWritten(t, u);
    var states, schedule, last := OneAfterTheOther(t, ops, 1);
    RevivedKeys(t, u, d, last.table);
    OpKeysMatch(t, Change(u));
    NotChangeFirst(t, u, d, last, k);
    NotRemoveFirst(t, u, d, last, k);
    if HasSerial(t, ops, last) {
      SerialOfTwo(t, ops, last);
    }
  }

  /** A concurrent update and delete.  When no document that the update writes comes under
      the filter of the delete, every schedule is serial exactly when the two write
      different documents. */
  lemma UpdateDeleteSerialExactly(t: Coll, u: UpdateModel, d: DeleteModel)
    requires KeyInvariant(t) && Succeeds(u.update) && !u.upsert && KeepsKeys(t, MatchSet(t, u.filter), u.update)
    requires BringsNoneUnder(t, u, d.filter)
    ensures AlwaysSerial(t, [Change(u), Remove(d)]) <==>
            Elements(OpKeys(t, Change(u))) !! Elements(OpKeys(t, Remove(d)))
  {
    hide OpKeys, AlwaysSerial, KeepsKeys, LeavesAlone;
    if Elements(OpKeys(t, Change(u))) !! Elements(OpKeys(t, Remove(d))) {
      KeepsWritten(t, u);
      ChangeLeavesAlone(t, u, d);
      RemoveLeavesAlone(t, d, Change(u));
      IndependentAlwaysSerial(t, [Change(u), Remove(d)]);
    } else {
      var k :| k in Elements(OpKeys(t, Change(u))) && k in Elements(OpKeys(t, Remove(d)));
      SharedKeySurvives(t, u, d, k);
    }
  }

  // ----- two deletes -----

  lemma RemovedKeys(t: Coll, d: DeleteModel, e: DeleteModel, table: Coll)
    requires forall k :: LastWins(t, Remove(d), Remove(e), k, RowAt(table, k))
    ensures table.Keys == t.Keys - Elements(OpKeys(t, Remove(d))) - Elements(OpKeys(t, Remove(e)))
  {
    hide OpKeys;
    forall k ensures k in table <==> k in t && k !in OpKeys(t, Remove(d)) && k !in OpKeys(t, Remove(e)) {
      assert LastWins(t, Remove(d), Remove(e), k, RowAt(table, k));
    }
  }

  /** One after the other, a document that both would take is counted once. */
  lemma CountedOnce(t: Coll, d: DeleteModel, e: DeleteModel, end: Coll, k: string)
    requires KeyInvariant(t) && k in OpKeys(t, Remove(d)) && k in OpKeys(t, Remove(e))
    requires end.Keys == t.Keys - Elements(OpKeys(t, Remove(d))) - Elements(OpKeys(t, Remove(e)))
    ensures !Serial(t, [Job(Remove(d), Deleted(Ok(|OpKeys(t, Remove(d))|))),
                        Job(Remove(e), Deleted(Ok(|OpKeys(t, Remove(e))|)))], end)
  {
    hide OpRuns, OpKeys, Serial;
    var x := Job(Remove(d), Deleted(Ok(|OpKeys(t, Remove(d))|)));
    var y := Job(Remove(e), Deleted(Ok(|OpKeys(t, Remove(e))|)));
    var some, mine := Elements(OpKeys(t, Remove(e))), Elements(OpKeys(t, Remove(d)));
    assert k in some && k in mine;
    OpKeysMatch(t, Remove(e));
    ElementCount(OpKeys(t, Remove(e)));
    if Serial(t, [x, y], end) {
      var mid := SerialPair(t, x, y, end);
      RemovesItsCount(t, d, mid, |OpKeys(t, Remove(d))|);
      RemovesItsCount(mid, e, end, |OpKeys(t, Remove(e))|);
      SmallerCount(mid.Keys, Elements(OpKeys(mid, Remove(e))), some, mine, end.Keys);
    }
  }

  lemma SmallerCount(all: set<string>, taken: set<string>, some: set<string>, mine: set<string>, end: set<string>)
    requires taken <= all && all !! mine && some <= all + mine && end == all - taken == all - some && |taken| == |some|
    ensures some !! mine
  {
    assert taken == some - mine;
    assert |some * mine| == |some| - |some - mine|;
  }

  lemma SharedKeyCountedTwice(t: Coll, d: DeleteModel, e: DeleteModel, k: string)
    requires KeyInvariant(t) && k in OpKeys(t, Remove(d)) && k in OpKeys(t, Remove(e))
    ensures !AlwaysSerial(t, [Remove(d), Remove(e)])
  {
    hide OpKeys, Serial, HasSerial, IsRun;
    var ops := [Remove(d), Remove(e)];
    var states, schedule, last := OneAfterTheOther(t, ops, 0);
    RemovedKeys(t, d, e, last.table);
    CountedOnce(t, d, e, last.table, k);
    CountedOnce(t, e, d, last.table, k);
    if HasSerial(t, ops, last) {
      SerialOfTwo(t, ops, last);
    }
  }

  /** Two concurrent deletes are serial under every schedule exactly when they take
      different documents: a shared one is counted by both. */
  lemma DeletesSerialExactly(t: Coll, d: DeleteModel, e: DeleteModel)
    requires KeyInvariant(t)
    ensures AlwaysSerial(t, [Remove(d), Remove(e)]) <==>
            Elements(OpKeys(t, Remove(d))) !! Elements(OpKeys(t, Remove(e)))
  {
    hide OpKeys, AlwaysSerial, LeavesAlone;
    if Elements(OpKeys(t, Remove(d))) !! Elements(OpKeys(t, Remove(e))) {
      RemoveLeavesAlone(t, d, Remove(e));
      RemoveLeavesAlone(t, e, Remove(d));
      IndependentAlwaysSerial(t, [Remove(d), Remove(e)]);
    } else {
      var k :| k in Elements(OpKeys(t, Remove(d))) && k in Elements(OpKeys(t, Remove(e)));
      SharedKeyCountedTwice(t, d, e, k);
    }
  }
}
