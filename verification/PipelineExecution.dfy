/** The pipeline as the engine executes it: slices reassigned stage by stage, `$match`
    compacting its input in place (`ApplyPipeline` in internal/mql/mql.go). */
module PipelineExecution {
  import opened Bson
  import opened Enumerations
  import Groups
  import Matching
  import opened Pipelines
  import opened Queries
  import opened StableSort
  import Unwinding

  /** `filtered := docs[:0]` with appends: survivors move to the front of the slice. */
  method CompactInPlace(a: array<Document>, filter: Value) returns (n: nat)
    modifies a
    ensures n <= a.Length
    ensures a[..n] == Filter(Passes(filter), old(a[..]))
  {
    n := 0;
    ghost var was := a[..];
    assert was[..0] == [];
    for i := 0 to a.Length
      invariant n <= i
      invariant a[..n] == Filter(Passes(filter), was[..i])
      invariant a[i..] == was[i..]
    {
      assert a[i] == a[i..][0] == was[i];
      assert was[..i + 1] == was[..i] + [was[i]];
      FilterAppend(Passes(filter), was[..i], [was[i]]);
      assert Filter(Passes(filter), [was[i]][1..]) == [];
      assert a[i + 1..] == a[i..][1..] == was[i + 1..];
      var keep := Matching.MatchesLoop(a[i], filter);
      if keep {
        ghost var kept := a[..n];
        a[n] := a[i];
        n := n + 1;
        assert a[..n] == kept + [was[i]];
      }
    }
    assert was[..a.Length] == was;
  }

  method MatchStage(docs: seq<Document>, filter: Value) returns (kept: seq<Document>)
    ensures kept == Filter(Passes(filter), docs)
  {
    var a := new Document[|docs|](i requires 0 <= i < |docs| => docs[i]);
    assert a[..] == docs;
    var n := CompactInPlace(a, filter);
    kept := a[..n];
  }

  method SortDocuments(docs: seq<Document>, spec: Document) returns (sorted: seq<Document>)
    ensures exists field :: FirstEntry(spec, field) && sorted == SortBy(docs, spec, field)
  {
    var a := new Document[|docs|](i requires 0 <= i < |docs| => docs[i]);
    assert a[..] == docs;
    ghost var field := SortDocs(a, spec);
    sorted := a[..];
  }

  lemma CountSpecSupported(raw: Value)
    ensures Groups.Supported(CountSpec(raw))
  {
    var spec := CountSpec(raw);
    assert AsMap(spec["count"]) == map["$sum" := Int32(1)];
    assert Groups.AccumulatorNamed("$sum") == Groups.Sum;
    assert forall out :: out in spec && out != "_id" ==> out == "count";
  }

  method SortByCountStage(docs: seq<Document>, raw: Value) returns (out: Piped)
    ensures EntryRuns(docs, SortByCount, raw, out)
  {
    CountSpecSupported(raw);
    var grouped := Groups.Group(docs, CountSpec(raw));
    var sorted := SortDocuments(grouped.value, BY_COUNT);
    ghost var field :| FirstEntry(BY_COUNT, field) && sorted == SortBy(grouped.value, BY_COUNT, field);
    assert "count" in BY_COUNT;
    assert field == "count";
    out := Docs(sorted);
  }

  /** One entry of a stage document. */
  method ApplyEntry(docs: seq<Document>, stage: Stage, raw: Value) returns (out: Piped)
    ensures EntryRuns(docs, stage, raw, out)
  {
    if stage == SortStage {
      var sorted := SortDocuments(docs, AsMap(raw));
      out := Docs(sorted);
    } else if stage == GroupStage {
      var grouped := Groups.Group(docs, AsMap(raw));
      out := if grouped.Ok? then Docs(grouped.value) else Failed(grouped.error);
    } else if stage == SortByCount {
      out := SortByCountStage(docs, raw);
    } else {
      out := ApplySimple(docs, stage, raw);
    }
  }

  method ApplySimple(docs: seq<Document>, stage: Stage, raw: Value) returns (out: Piped)
    ensures out == Simple(docs, stage, raw)
  {
    if stage == Match {
      var kept := MatchStage(docs, raw);
      out := Docs(kept);
    } else if stage == ProjectStage {
      var projected := ProjectLoop(docs, AsMap(raw));
      out := Docs(projected);
    } else if stage == Unwind {
      var unwound := Unwinding.UnwindLoop(docs, raw);
      out := Docs(unwound);
    } else {
      out := Simple(docs, stage, raw);
    }
  }

  // ----- stage documents -----

  /** Whatever finishes the work from `docs` finishes it from `input`. */
  ghost predicate Continues(input: seq<Document>, stage: Document, ops: seq<string>, docs: seq<Document>) {
    && (forall op :: op in ops ==> op in stage)
    && forall rest, out :: (forall op :: op in rest ==> op in stage) && EntriesRun(docs, stage, rest, out) ==>
         EntriesRun(input, stage, ops + rest, out)
  }

  lemma ContinueOne(
      input: seq<Document>, stage: Document, ops: seq<string>, docs: seq<Document>, op: string, next: seq<Document>)
    requires op in stage && Continues(input, stage, ops, docs)
    requires EntryRuns(docs, StageNamed(op), stage[op], Docs(next))
    ensures Continues(input, stage, ops + [op], next)
  {
    forall rest, out | (forall op :: op in rest ==> op in stage) && EntriesRun(next, stage, rest, out)
      ensures EntriesRun(input, stage, ops + [op] + rest, out)
    {
      ContinueWith(input, stage, ops, docs, op, next, rest, out);
    }
  }

  lemma ContinueWith(
      input: seq<Document>, stage: Document, ops: seq<string>, docs: seq<Document>, op: string,
      next: seq<Document>, rest: seq<string>, out: Piped)
    requires op in stage && Continues(input, stage, ops, docs)
    requires forall o :: o in rest ==> o in stage
    requires EntryRuns(docs, StageNamed(op), stage[op], Docs(next))
    requires EntriesRun(next, stage, rest, out)
    ensures EntriesRun(input, stage, ops + [op] + rest, out)
  {
    RunBefore(docs, stage, op, next, rest, out);
    assert ops + [op] + rest == ops + ([op] + rest);
  }

  lemma RunBefore(
      docs: seq<Document>, stage: Document, op: string, next: seq<Document>, rest: seq<string>, out: Piped)
    requires op in stage && forall o :: o in rest ==> o in stage
    requires EntryRuns(docs, StageNamed(op), stage[op], Docs(next))
    requires EntriesRun(next, stage, rest, out)
    ensures EntriesRun(docs, stage, [op] + rest, out)
  {
    var more, mid := [op] + rest, Docs(next);
    assert more[1..] == rest && more[0] == op;
    assert EntriesRun(mid.docs, stage, more[1..], out);
  }

  lemma StopAt(
      input: seq<Document>, stage: Document, ops: seq<string>, docs: seq<Document>, op: string, rest: seq<string>,
      out: Piped)
    requires Continues(input, stage, ops, docs)
    requires op in stage && forall o :: o in rest ==> o in stage
    requires EntryRuns(docs, StageNamed(op), stage[op], out) && !out.Docs?
    ensures forall o :: o in ops + ([op] + rest) ==> o in stage
    ensures EntriesRun(input, stage, ops + ([op] + rest), out)
  {
    var more := [op] + rest;
    assert more[0] == op;
    assert EntriesRun(docs, stage, more, out);
  }

  lemma {:induction false} SomeOrder(keys: set<string>) returns (order: seq<string>)
    ensures Enumerates(order, keys)
    decreases keys
  {
    if keys == {} {
      order := [];
    } else {
      var k :| k in keys;
      var rest := SomeOrder(keys - {k});
      EnumerateMore(rest, keys - {k}, k);
      assert keys - {k} + {k} == keys;
      order := rest + [k];
    }
  }

  lemma JoinOrders(a: seq<string>, op: string, b: seq<string>, keys: set<string>, rest: set<string>)
    requires op in keys && op !in rest && rest <= keys
    requires Enumerates(a, keys - rest - {op}) && Enumerates(b, rest)
    ensures Enumerates(a + ([op] + b), keys)
  {
    var all := a + ([op] + b);
    forall k ensures k in all <==> k in keys {
      assert k in all <==> k in a || k == op || k in b;
    }
    assert forall i :: 0 <= i < |a| ==> all[i] in a;
    assert forall i :: |a| < i < |all| ==> all[i] in b && all[i] == b[i - |a| - 1];
  }

  /** The entries of one stage document, in arbitrary order. */
  method ApplyStage(input: seq<Document>, stage: Document) returns (out: Piped)
    ensures StageRuns(input, stage, out)
  {
    var docs := input;
    var todo := stage.Keys;
    ghost var ops: seq<string> := [];
    assert forall rest: seq<string> :: [] + rest == rest;
    while todo != {}
      invariant todo <= stage.Keys
      invariant Enumerates(ops, stage.Keys - todo)
      invariant Continues(input, stage, ops, docs)
      decreases todo
    {
      var op :| op in todo;
      todo := todo - {op};
      out := ApplyEntry(docs, StageNamed(op), stage[op]);
      if !out.Docs? {
        ghost var rest := SomeOrder(todo);
        StopAt(input, stage, ops, docs, op, rest, out);
        JoinOrders(ops, op, rest, stage.Keys, todo);
        return;
      }
      ContinueOne(input, stage, ops, docs, op, out.docs);
      EnumerateMore(ops, stage.Keys - todo - {op}, op);
      ops := ops + [op];
      docs := out.docs;
    }
    out := Docs(docs);
    assert EntriesRun(docs, stage, [], out);
    assert ops + [] == ops;
  }

  /** Stage after stage; the first failure ends the pipeline. */
  method ApplyPipeline(input: seq<Document>, pipeline: seq<Value>) returns (out: Piped)
    ensures PipelineRuns(input, pipeline, out)
  {
    var docs := input;
    assert pipeline[0..] == pipeline;
    for i := 0 to |pipeline|
      invariant forall o :: PipelineRuns(docs, pipeline[i..], o) ==> PipelineRuns(input, pipeline, o)
    {
      assert pipeline[i..][0] == pipeline[i] && pipeline[i..][1..] == pipeline[i + 1..];
      out := ApplyStage(docs, AsMap(pipeline[i]));
      if !out.Docs? {
        assert PipelineRuns(docs, pipeline[i..], out);
        return;
      }
      docs := out.docs;
    }
    assert pipeline[|pipeline|..] == [];
    out := Docs(docs);
  }
}
