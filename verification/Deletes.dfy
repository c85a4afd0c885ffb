/** What deletes remove and what they count
    (internal/backend/memory/memory.go:218-237, internal/backend/tidb/store.go:308-335). */
module Deletes {
  import opened Bson
  import opened Collections
  import opened Refinement

  lemma SizeWithout(c: Coll, keys: set<string>)
    requires keys <= c.Keys
    ensures |c - keys| == |c| - |keys|
  {
    assert (c - keys).Keys == c.Keys - keys;
    assert |(c - keys).Keys| == |c - keys| && |c.Keys| == |c|;
    assert |c.Keys - keys| == |c.Keys| - |keys|;
  }

  lemma DeleteCounts(c: Coll, op: DeleteModel, next: Coll, n: nat)
    requires MemDelete(c, op, next, n)
    ensures next.Keys <= c.Keys && n == |c| - |next|
  {
    var matched := MatchSet(c, op.filter);
    if op.limit == 1 && matched != {} {
      var k :| k in matched && next == c - {k};
      SizeWithout(c, {k});
    } else {
      SizeWithout(c, matched);
    }
  }

  /** The memory store reports exactly how much smaller the collection became, for any
      list of deletes and any visiting order. */
  lemma {:induction false} DeletedIsShrinkage(c: Coll, ops: seq<DeleteModel>, next: Coll, n: nat)
    requires MemDeletes(c, ops, next, n)
    ensures next.Keys <= c.Keys && n == |c| - |next|
    decreases |ops|
  {
    if ops != [] {
      var mid, m, rest := FirstDelete(c, ops, next, n);
      DeleteCounts(c, ops[0], mid, m);
      DeletedIsShrinkage(mid, ops[1..], next, rest);
    }
  }

  lemma FirstDelete(c: Coll, ops: seq<DeleteModel>, next: Coll, n: nat) returns (mid: Coll, m: nat, rest: nat)
    requires MemDeletes(c, ops, next, n) && ops != []
    ensures MemDelete(c, ops[0], mid, m) && MemDeletes(mid, ops[1..], next, rest) && n == m + rest
  {
    mid, m, rest :| MemDelete(c, ops[0], mid, m) && MemDeletes(mid, ops[1..], next, rest) && n == m + rest;
  }

  // ----- deletes without limit -----

  ghost predicate NoLimit(ops: seq<DeleteModel>) {
    forall i :: 0 <= i < |ops| ==> ops[i].limit != 1
  }

  /** The documents that match at least one of the deletes. */
  function MatchAny(c: Coll, ops: seq<DeleteModel>): set<string> {
    if ops == [] then {} else MatchSet(c, ops[0].filter) + MatchAny(c, ops[1..])
  }

  /** Matches added up delete by delete. */
  function MatchTotal(c: Coll, ops: seq<DeleteModel>): nat {
    if ops == [] then 0 else |MatchSet(c, ops[0].filter)| + MatchTotal(c, ops[1..])
  }

  lemma MatchSetWithout(c: Coll, keys: set<string>, filter: Document)
    ensures MatchSet(c - keys, filter) == MatchSet(c, filter) - keys
  {
  }

  lemma {:induction false} MatchAnyWithout(c: Coll, keys: set<string>, ops: seq<DeleteModel>)
    ensures MatchAny(c - keys, ops) == MatchAny(c, ops) - keys
    decreases |ops|
  {
    if ops != [] {
      MatchSetWithout(c, keys, ops[0].filter);
      MatchAnyWithout(c, keys, ops[1..]);
    }
  }

  /** The memory store keeps exactly the documents that match none of the deletes. */
  lemma {:induction false} MemKeepsUnmatched(c: Coll, ops: seq<DeleteModel>, next: Coll, n: nat)
    requires NoLimit(ops) && MemDeletes(c, ops, next, n)
    ensures next == c - MatchAny(c, ops)
    ensures n == |MatchAny(c, ops)|
    decreases |ops|
  {
    if ops != [] {
      var mid, m, rest := FirstDelete(c, ops, next, n);
      var first := MatchSet(c, ops[0].filter);
      MemKeepsUnmatched(mid, ops[1..], next, rest);
      MatchAnyWithout(c, first, ops[1..]);
      RemoveInTwo(c, first, MatchAny(c, ops[1..]));
      assert ops[0].limit != 1;
    } else {
      assert c - {} == c;
    }
  }

  lemma RemoveInTwo(c: Coll, a: set<string>, b: set<string>)
    ensures c - a - (b - a) == c - (a + b)
    ensures |a + b| == |a| + |b - a|
  {
    assert a + b == a + (b - a);
    assert |a + (b - a)| == |a| + |b - a|;
  }

  /** The TiDB store keeps the same documents; its count is the sum of the matches of
      each delete on the snapshot. */
  lemma TidbKeepsUnmatched(t: Coll, ops: seq<DeleteModel>)
    requires NoLimit(ops) && KeyInvariant(t)
    ensures TidbDeletes(t, Scan(t), ops) == Removed(t - MatchAny(t, ops), true, MatchTotal(t, ops))
  {
    var snapshot := Scan(t);
    forall t', op | op in ops ensures DeletesMatches(t', t, snapshot, op) {
      var i :| 0 <= i < |ops| && ops[i] == op;
      VictimsRemoved(t', t, op);
    }
    SnapshotDeletes(t, t, snapshot, ops);
  }

  /** One delete by key for every document of the snapshot that matches. */
  ghost predicate DeletesMatches(t: Coll, c: Coll, snapshot: seq<Document>, op: DeleteModel) {
    && DeleteEach(t, Victims(snapshot, op)) == Changed(t - MatchSet(c, op.filter), true)
    && |Victims(snapshot, op)| == |MatchSet(c, op.filter)|
  }

  lemma {:induction false} SnapshotDeletes(t: Coll, c: Coll, snapshot: seq<Document>, ops: seq<DeleteModel>)
    requires forall t', op :: op in ops ==> DeletesMatches(t', c, snapshot, op)
    ensures TidbDeletes(t, snapshot, ops) == Removed(t - MatchAny(c, ops), true, MatchTotal(c, ops))
    decreases |ops|
  {
    if ops == [] {
      assert t - {} == t;
    } else {
      var first, others, m := MatchSet(c, ops[0].filter), MatchAny(c, ops[1..]), MatchTotal(c, ops[1..]);
      assert DeletesMatches(t, c, snapshot, ops[0]);
      SnapshotDeletes(t - first, c, snapshot, ops[1..]);
      FirstOfDeletes(t, snapshot, ops, t - first, t - first - others, m);
      RemoveBoth(t, first, others);
    }
  }

  lemma RemoveBoth(c: Coll, a: set<string>, b: set<string>)
    ensures c - a - b == c - (a + b)
  {
  }

  lemma FirstOfDeletes(t: Coll, snapshot: seq<Document>, ops: seq<DeleteModel>, mid: Coll, next: Coll, m: nat)
    requires ops != [] && DeleteEach(t, Victims(snapshot, ops[0])) == Changed(mid, true)
    requires TidbDeletes(mid, snapshot, ops[1..]) == Removed(next, true, m)
    ensures TidbDeletes(t, snapshot, ops) == Removed(next, true, |Victims(snapshot, ops[0])| + m)
  {
  }

  lemma VictimsRemoved(t: Coll, c: Coll, op: DeleteModel)
    requires op.limit != 1 && KeyInvariant(c)
    ensures DeleteEach(t, Victims(Scan(c), op)) == Changed(t - MatchSet(c, op.filter), true)
    ensures |Victims(Scan(c), op)| == |MatchSet(c, op.filter)|
  {
    var keys := VictimKeys(c, ScanOrder(c.Keys), op);
    VictimsByKey(c, ScanOrder(c.Keys), op);
    DeletesRemove(t, c, keys);
  }

  /** No document matches two of the deletes. */
  ghost predicate NoDoubleMatch(c: Coll, ops: seq<DeleteModel>) {
    forall i, j :: 0 <= i < j < |ops| ==> MatchSet(c, ops[i].filter) !! MatchSet(c, ops[j].filter)
  }

  lemma {:induction false} ApartFromAny(s: set<string>, c: Coll, ops: seq<DeleteModel>)
    ensures s !! MatchAny(c, ops) <==> forall i :: 0 <= i < |ops| ==> s !! MatchSet(c, ops[i].filter)
    decreases |ops|
  {
    if ops != [] {
      var rest := ops[1..];
      ApartFromAny(s, c, rest);
      assert s !! MatchAny(c, ops) <==> s !! MatchSet(c, ops[0].filter) && s !! MatchAny(c, rest);
      assert forall i :: 0 <= i < |rest| ==> rest[i] == ops[i + 1];
      assert forall i :: 0 < i < |ops| ==> ops[i] == rest[i - 1];
    }
  }

  lemma {:induction false} TotalIsUnion(c: Coll, ops: seq<DeleteModel>)
    ensures |MatchAny(c, ops)| <= MatchTotal(c, ops)
    ensures |MatchAny(c, ops)| == MatchTotal(c, ops) <==> NoDoubleMatch(c, ops)
    decreases |ops|
  {
    if ops != [] {
      var first, rest := MatchSet(c, ops[0].filter), ops[1..];
      var others := MatchAny(c, rest);
      TotalIsUnion(c, rest);
      assert |first + others| == |first| + |others| - |first * others|;
      assert forall k :: k in first && k in others <==> k in first * others;
      assert first * others == {} <==> |first * others| == 0;
      SplitDoubleMatch(c, ops);
    }
  }

  lemma SplitDoubleMatch(c: Coll, ops: seq<DeleteModel>)
    requires ops != []
    ensures NoDoubleMatch(c, ops) <==>
            NoDoubleMatch(c, ops[1..]) && MatchSet(c, ops[0].filter) !! MatchAny(c, ops[1..])
  {
    var first, rest := MatchSet(c, ops[0].filter), ops[1..];
    ApartFromAny(first, c, rest);
    assert forall i :: 0 <= i < |rest| ==> rest[i] == ops[i + 1];
    assert forall i :: 0 < i < |ops| ==> ops[i] == rest[i - 1];
    if NoDoubleMatch(c, rest) && first !! MatchAny(c, rest) {
      forall i, j | 0 <= i < j < |ops| ensures MatchSet(c, ops[i].filter) !! MatchSet(c, ops[j].filter) {
        assert ops[j] == rest[j - 1];
        assert i > 0 ==> ops[i] == rest[i - 1];
      }
    }
  }

  /** For deletes without limit both stores leave the same documents, and they report
      the same count exactly when no document matches two of the deletes. */
  lemma DeleteAccounting(t: Coll, ops: seq<DeleteModel>, next: Coll, n: nat)
    requires KeyInvariant(t) && NoLimit(ops)
    requires MemDeletes(t, ops, next, n)
    ensures TidbDeletes(t, Scan(t), ops) == Removed(next, true, MatchTotal(t, ops))
    ensures n == MatchTotal(t, ops) <==> NoDoubleMatch(t, ops)
  {
    MemKeepsUnmatched(t, ops, next, n);
    TidbKeepsUnmatched(t, ops);
    TotalIsUnion(t, ops);
  }
}
