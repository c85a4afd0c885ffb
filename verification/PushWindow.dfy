/** `$push` with `$each`, `$sort` and `$slice` as a bounded window over a stream
    (internal/mql/mql.go, the `$push` case of ApplyUpdate). */
module PushWindow {
  import opened Bson
  import opened Ordering
  import opened StableSort
  import opened Updates

  function PushUpdate(field: string, operand: Value): Document {
    OneField("$push", field, operand)
  }

  function SortedWindow(batch: seq<Value>, direction: Value, n: Value): Value {
    Map(map["$each" := Array(batch), "$sort" := direction, "$slice" := n])
  }

  function Window(batch: seq<Value>, n: Value): Value {
    Map(map["$each" := Array(batch), "$slice" := n])
  }

  /** `docs` is the history of a document under one `$push` update after another,
      whatever the clock reads. */
  ghost predicate PushHistory(docs: seq<Document>, field: string, operands: seq<Value>) {
    && |docs| == |operands| + 1
    && field !in docs[0]
    && forall i :: 0 <= i < |operands| ==> CanBecome(docs[i], PushUpdate(field, operands[i]), docs[i + 1])
  }

  /** A `$push` of one field has one outcome. */
  lemma PushOutcome(doc: Document, field: string, operand: Value, next: Document)
    requires CanBecome(doc, PushUpdate(field, operand), next)
    ensures next == doc[field := Array(PushInto(AsArray(Lookup(doc, field)), operand))]
  {
    assert OperatorNamed("$push") == Push;
    var now :| Outcome(doc, PushUpdate(field, operand), now, next);
    OneFieldOutcome(doc, "$push", field, operand, now, next);
    PushEffect(doc, field, operand, now);
  }

  lemma PushEffect(doc: Document, field: string, operand: Value, now: int)
    ensures ApplyStep(doc, Step("$push", Push, field, operand), now) ==
            doc[field := Array(PushInto(AsArray(Lookup(doc, field)), operand))]
  {
  }

  /** The window after pushing the operands one after another into an empty one. */
  function PushFold(operands: seq<Value>): seq<Value> {
    if operands == [] then []
    else PushInto(PushFold(operands[..|operands| - 1]), operands[|operands| - 1])
  }

  lemma {:induction false} HistoryIsFold(docs: seq<Document>, field: string, operands: seq<Value>)
    requires PushHistory(docs, field, operands)
    ensures AsArray(Lookup(docs[|operands|], field)) == PushFold(operands)
    decreases |operands|
  {
    var k := |operands| - 1;
    if operands != [] {
      HistoryIsFold(docs[..k + 1], field, operands[..k]);
      PushOutcome(docs[k], field, operands[k], docs[k + 1]);
    }
  }

  /** Streaming top-n.  Starting from a missing field, any run of batches pushed with a
      fixed sort direction and a fixed slice leaves exactly the slice of the stable sort
      of everything ever pushed: the first n for n >= 0, the last |n| for n < 0. */
  lemma SortedWindowKeepsTop(
      docs: seq<Document>, field: string, batches: seq<seq<Value>>, operands: seq<Value>,
      direction: Value, n: Value, numeric: bool)
    requires PushHistory(docs, field, operands)
    requires |operands| == |batches|
    requires forall i :: 0 <= i < |batches| ==> operands[i] == SortedWindow(batches[i], direction, n)
    requires OneClass(Flatten(batches), numeric)
    ensures AsArray(Lookup(docs[|batches|], field)) ==
            Slice(Sort(ValueLess(ToFloat(direction) < 0.0), Flatten(batches)), ToInt(n))
  {
    HistoryIsFold(docs, field, operands);
    SortedFold(batches, operands, direction, n, numeric);
  }

  lemma {:induction false} SortedFold(
      batches: seq<seq<Value>>, operands: seq<Value>, direction: Value, n: Value, numeric: bool)
    requires |operands| == |batches|
    requires forall i :: 0 <= i < |batches| ==> operands[i] == SortedWindow(batches[i], direction, n)
    requires OneClass(Flatten(batches), numeric)
    ensures PushFold(operands) == Slice(Sort(ValueLess(ToFloat(direction) < 0.0), Flatten(batches)), ToInt(n))
    decreases |batches|
  {
    var less := ValueLess(ToFloat(direction) < 0.0);
    var k := |batches| - 1;
    if batches != [] {
      var history, batch := Flatten(batches[..k]), batches[k];
      SortedFold(batches[..k], operands[..k], direction, n, numeric);
      var window := Slice(Sort(less, history), ToInt(n));
      assert operands[k] == SortedWindow(batch, direction, n);
      SortedPush(window, batch, direction, n);
      assert PushFold(operands) == Slice(Sort(less, window + batch), ToInt(n));
      assert Flatten(batches) == history + batch;
      ValueLessIsWeakOrder(ToFloat(direction) < 0.0, numeric);
      if ToInt(n) >= 0 {
        TakeSortStep(less, InClass(numeric), ToInt(n), history, batch);
      } else {
        LastSortStep(less, InClass(numeric), -ToInt(n), history, batch);
      }
    }
  }

  lemma SortedPush(items: seq<Value>, batch: seq<Value>, direction: Value, n: Value)
    ensures PushInto(items, SortedWindow(batch, direction, n)) ==
            Slice(Sort(ValueLess(ToFloat(direction) < 0.0), items + batch), ToInt(n))
  {
    var spec := SortedWindow(batch, direction, n).m;
    assert "$each" in spec && spec["$each"] == Array(batch);
    assert "$sort" in spec && spec["$sort"] == direction;
    assert "$slice" in spec && spec["$slice"] == n;
  }

  /** Without `$sort` a negative slice keeps the end of the push history. */
  lemma WindowKeepsLast(
      docs: seq<Document>, field: string, batches: seq<seq<Value>>, operands: seq<Value>, n: Value)
    requires PushHistory(docs, field, operands)
    requires |operands| == |batches|
    requires forall i :: 0 <= i < |batches| ==> operands[i] == Window(batches[i], n)
    requires ToInt(n) < 0
    ensures AsArray(Lookup(docs[|batches|], field)) == Last(-ToInt(n), Flatten(batches))
  {
    HistoryIsFold(docs, field, operands);
    var m := -ToInt(n);
    PlainFold(batches, operands, n, m);
  }

  lemma {:induction false} PlainFold(batches: seq<seq<Value>>, operands: seq<Value>, n: Value, m: nat)
    requires |operands| == |batches|
    requires forall i :: 0 <= i < |batches| ==> operands[i] == Window(batches[i], n)
    requires ToInt(n) + m == 0 && m > 0
    ensures PushFold(operands) == Last(m, Flatten(batches))
    decreases |batches|
  {
    var k := |batches| - 1;
    if batches != [] {
      var window, history, batch := PushFold(operands[..k]), Flatten(batches[..k]), batches[k];
      PlainFold(batches[..k], operands[..k], n, m);
      assert operands[k] == Window(batch, n);
      PlainPush(window, batch, n, m);
      LastOfLast(m, history, batch);
      assert PushFold(operands) == PushInto(window, Window(batch, n));
      assert Flatten(batches) == history + batch;
    }
  }

  lemma PlainPush(items: seq<Value>, batch: seq<Value>, n: Value, m: nat)
    requires ToInt(n) + m == 0 && m > 0
    ensures PushInto(items, Window(batch, n)) == Last(m, items + batch)
  {
    var spec := Window(batch, n).m;
    assert "$each" in spec && "$slice" in spec && "$sort" !in spec;
  }

  lemma LastOfLast<T>(m: nat, s: seq<T>, t: seq<T>)
    ensures Last(m, Last(m, s) + t) == Last(m, s + t)
  {
    if m <= |s| {
      assert s + t == s[..|s| - m] + (s[|s| - m..] + t);
    }
  }
}
