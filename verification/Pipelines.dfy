/** The aggregation pipeline (`ApplyPipeline` in internal/mql/mql.go) and its agreement
    with find.

    A stage is one entry of a stage document.  `EntryRuns` relates the input of a stage to
    every output it can have: the order of groups and the deciding sort entry are free. */
module Pipelines {
  import opened Bson
  import opened Enumerations
  import Groups
  import opened Queries
  import opened StableSort
  import Unwinding

  /** A slice bound below zero makes the engine panic. */
  datatype Piped = Docs(docs: seq<Document>) | Failed(error: string) | Panics

  datatype Stage =
    | Match | Limit | Skip | SortStage | ProjectStage | AddFields | Unset | Unwind | Count
    | GroupStage | SortByCount | ReplaceRoot | Sample | PlanCacheStats | Unsupported

  function StageNamed(name: string): Stage {
    if name == "$match" then Match
    else if name == "$limit" then Limit
    else if name == "$skip" then Skip
    else if name == "$sort" then SortStage
    else if name == "$project" then ProjectStage
    else if name == "$addFields" || name == "$set" then AddFields
    else if name == "$unset" then Unset
    else if name == "$unwind" then Unwind
    else if name == "$count" then Count
    else if name == "$group" then GroupStage
    else if name == "$sortByCount" then SortByCount
    else if name == "$replaceRoot" then ReplaceRoot
    else if name == "$sample" then Sample
    else if name == "$planCacheStats" then PlanCacheStats
    else Unsupported
  }

  // ----- stages with one output -----

  function LimitTo(docs: seq<Document>, n: int): Piped {
    if n >= |docs| then Docs(docs) else if n < 0 then Panics else Docs(docs[..n])
  }

  function SkipFirst(docs: seq<Document>, n: int): Piped {
    if n >= |docs| then Docs([]) else if n < 0 then Panics else Docs(docs[n..])
  }

  function WithFields(doc: Document, spec: Document): Document {
    doc + map field | field in spec :: Groups.EvalExpr(doc, spec[field])
  }

  function UnsetNames(raw: Value): set<string> {
    match raw
    case Str(s) => {s}
    case Array(items) => set i | 0 <= i < |items| :: Sprint(items[i])
    case _ => {}
  }

  function CountName(raw: Value): string {
    if raw.Str? && raw.s != "" then raw.s else "count"
  }

  function Roots(docs: seq<Document>, expr: Value): seq<Document> {
    if docs == [] then []
    else
      var rest := Roots(docs[..|docs| - 1], expr);
      var root := Groups.EvalExpr(docs[|docs| - 1], expr);
      if root.Map? then rest + [root.m] else rest
  }

  function SampleFirst(docs: seq<Document>, size: int): seq<Document> {
    if 0 < size < |docs| then docs[..size] else docs
  }

  const PLAN_CACHE_STATS: seq<Document> := [map["createdFromQuery" := Map(map[]), "works" := Int32(0)]]

  function Simple(docs: seq<Document>, stage: Stage, raw: Value): Piped {
    match stage
    case Match => Docs(Filter(Passes(raw), docs))
    case Limit => LimitTo(docs, ToInt(raw))
    case Skip => SkipFirst(docs, ToInt(raw))
    case ProjectStage => Docs(Project(docs, AsMap(raw)))
    case AddFields => Docs(MapSeq(doc => WithFields(doc, AsMap(raw)), docs))
    case Unset => Docs(MapSeq((doc: Document) => doc - UnsetNames(raw), docs))
    case Unwind => Docs(Unwinding.Unwind(docs, raw))
    case Count => Docs([map[CountName(raw) := Int64(|docs|)]])
    case ReplaceRoot => Docs(Roots(docs, Lookup(AsMap(raw), "newRoot")))
    case Sample => Docs(SampleFirst(docs, ToInt(Lookup(AsMap(raw), "size"))))
    case PlanCacheStats => Docs(PLAN_CACHE_STATS)
    case _ => Failed("unsupported aggregation stage")
  }

  // ----- all stages -----

  ghost predicate GroupRuns(docs: seq<Document>, spec: Document, out: Piped) {
    if docs != [] && !Groups.Supported(spec) then out.Failed?
    else out.Docs? && Groups.GroupsTo(docs, spec, out.docs)
  }

  function CountSpec(raw: Value): Document {
    map["_id" := raw, "count" := Map(map["$sum" := Int32(1)])]
  }

  const BY_COUNT: Document := map["count" := Int32(-1)]

  ghost predicate EntryRuns(docs: seq<Document>, stage: Stage, raw: Value, out: Piped) {
    match stage
    case SortStage => exists field :: FirstEntry(AsMap(raw), field) && out == Docs(SortBy(docs, AsMap(raw), field))
    case GroupStage => GroupRuns(docs, AsMap(raw), out)
    case SortByCount => exists grouped ::
      Groups.GroupsTo(docs, CountSpec(raw), grouped) && out == Docs(SortBy(grouped, BY_COUNT, "count"))
    case _ => out == Simple(docs, stage, raw)
  }

  /** A stage document with several entries runs them in arbitrary order. */
  ghost predicate EntriesRun(docs: seq<Document>, stage: Document, ops: seq<string>, out: Piped)
    requires forall op :: op in ops ==> op in stage
    decreases |ops|
  {
    if ops == [] then out == Docs(docs)
    else exists mid ::
      && EntryRuns(docs, StageNamed(ops[0]), stage[ops[0]], mid)
      && if mid.Docs? then EntriesRun(mid.docs, stage, ops[1..], out) else out == mid
  }

  ghost predicate StageRuns(docs: seq<Document>, stage: Document, out: Piped) {
    exists ops :: Enumerates(ops, stage.Keys) && EntriesRun(docs, stage, ops, out)
  }

  ghost predicate PipelineRuns(docs: seq<Document>, pipeline: seq<Value>, out: Piped)
    decreases |pipeline|
  {
    if pipeline == [] then out == Docs(docs)
    else exists mid ::
      && StageRuns(docs, AsMap(pipeline[0]), mid)
      && if mid.Docs? then PipelineRuns(mid.docs, pipeline[1..], out) else out == mid
  }

  // ----- agreement with find -----

  function StageOf(name: string, raw: Value): Value {
    Map(map[name := raw])
  }

  lemma SingleStage(docs: seq<Document>, name: string, raw: Value, out: Piped)
    ensures StageRuns(docs, AsMap(StageOf(name, raw)), out) <==> EntryRuns(docs, StageNamed(name), raw, out)
  {
    var stage := map[name := raw];
    if StageRuns(docs, stage, out) {
      var ops :| Enumerates(ops, stage.Keys) && EntriesRun(docs, stage, ops, out);
      OneName(ops, name);
      var mid :| EntryRuns(docs, StageNamed(name), stage[name], mid) &&
        if mid.Docs? then EntriesRun(mid.docs, stage, ops[1..], out) else out == mid;
      assert out == mid;
    }
    if EntryRuns(docs, StageNamed(name), raw, out) {
      var ops := [name];
      assert Enumerates(ops, stage.Keys);
      assert ops[1..] == [];
      assert out.Docs? ==> EntriesRun(out.docs, stage, ops[1..], out);
      assert EntriesRun(docs, stage, ops, out);
    }
  }

  lemma OneName(ops: seq<string>, name: string)
    requires Enumerates(ops, {name})
    ensures ops == [name]
  {
    assert name in ops;
    assert ops[0] in ops && ops[|ops| - 1] in ops;
    assert ops[0] == name && ops[|ops| - 1] == name;
  }

  lemma FirstStage(docs: seq<Document>, name: string, raw: Value, rest: seq<Value>, out: Piped)
    ensures PipelineRuns(docs, [StageOf(name, raw)] + rest, out) <==>
            exists mid :: EntryRuns(docs, StageNamed(name), raw, mid) &&
              if mid.Docs? then PipelineRuns(mid.docs, rest, out) else out == mid
  {
    var pipeline := [StageOf(name, raw)] + rest;
    assert pipeline[1..] == rest && pipeline[0] == StageOf(name, raw);
    forall mid ensures StageRuns(docs, AsMap(pipeline[0]), mid) <==> EntryRuns(docs, StageNamed(name), raw, mid) {
      SingleStage(docs, name, raw, mid);
    }
  }

  /** A stage with one output just feeds the rest. */
  lemma SimpleStage(docs: seq<Document>, name: string, raw: Value, rest: seq<Value>, out: Piped)
    requires StageNamed(name) !in {SortStage, GroupStage, SortByCount}
    ensures PipelineRuns(docs, [StageOf(name, raw)] + rest, out) <==>
            var mid := Simple(docs, StageNamed(name), raw);
            if mid.Docs? then PipelineRuns(mid.docs, rest, out) else out == mid
  {
    FirstStage(docs, name, raw, rest, out);
    assert EntryRuns(docs, StageNamed(name), raw, Simple(docs, StageNamed(name), raw));
  }

  lemma SortFirst(docs: seq<Document>, spec: Document, rest: seq<Value>, out: Piped)
    ensures PipelineRuns(docs, [StageOf("$sort", Map(spec))] + rest, out) <==>
            exists field :: FirstEntry(spec, field) && PipelineRuns(SortBy(docs, spec, field), rest, out)
  {
    FirstStage(docs, "$sort", Map(spec), rest, out);
    assert StageNamed("$sort") == SortStage;
    forall field | FirstEntry(spec, field)
      ensures EntryRuns(docs, SortStage, Map(spec), Docs(SortBy(docs, spec, field)))
    {
      assert FirstEntry(AsMap(Map(spec)), field);
    }
  }

  lemma ProjectNothing(docs: seq<Document>)
    ensures Project(docs, map[]) == docs
  {
    forall doc: Document ensures Projected(doc, map[]) == doc {
    }
  }

  /** Skip, limit and project, as the tail of a find plan. */
  function Tail(k: Value, n: Value, p: Document): seq<Value> {
    [StageOf("$skip", k)] + ([StageOf("$limit", n)] + ([StageOf("$project", Map(p))] + []))
  }

  lemma TailIsPage(docs: seq<Document>, k: Value, n: Value, p: Document, out: Piped)
    requires ToInt(k) >= 0 && ToInt(n) > 0
    ensures PipelineRuns(docs, Tail(k, n, p), out) <==>
            out == Docs(Project(Page(docs, ToInt(k), ToInt(n)), p))
  {
    var skipped := SkipFirst(docs, ToInt(k)).docs;
    SimpleStage(docs, "$skip", k, [StageOf("$limit", n)] + ([StageOf("$project", Map(p))] + []), out);
    LimitProject(skipped, n, p, out);
    assert LimitTo(skipped, ToInt(n)).docs == Page(docs, ToInt(k), ToInt(n));
  }

  lemma LimitProject(docs: seq<Document>, n: Value, p: Document, out: Piped)
    requires ToInt(n) > 0
    ensures PipelineRuns(docs, [StageOf("$limit", n)] + ([StageOf("$project", Map(p))] + []), out) <==>
            out == Docs(Project(LimitTo(docs, ToInt(n)).docs, p))
  {
    SimpleStage(docs, "$limit", n, [StageOf("$project", Map(p))] + [], out);
    SimpleStage(LimitTo(docs, ToInt(n)).docs, "$project", Map(p), [], out);
  }

  /** `$match` then `$count` reports the number of documents a find would return. */
  lemma CountAfterMatch(docs: seq<Document>, f: Document, name: Value, out: Piped)
    ensures PipelineRuns(docs, [StageOf("$match", Map(f))] + ([StageOf("$count", name)] + []), out) <==>
            var found := ApplyFindOptions(Filter(Passes(Map(f)), docs), FindOptions(map[], map[], 0, 0), "");
            out == Docs([map[CountName(name) := Int64(|found|)]])
  {
    hide PipelineRuns;
    var matched := Filter(Passes(Map(f)), docs);
    SimpleStage(docs, "$match", Map(f), [StageOf("$count", name)] + [], out);
    SimpleStage(matched, "$count", name, [], out);
    EndOfPipeline([map[CountName(name) := Int64(|matched|)]], out);
  }

  lemma EndOfPipeline(docs: seq<Document>, out: Piped)
    ensures PipelineRuns(docs, [], out) <==> out == Docs(docs)
  {
  }

  function FindPlan(f: Document, s: Document, k: Value, n: Value, p: Document): seq<Value> {
    [StageOf("$match", Map(f))] + ([StageOf("$sort", Map(s))] + Tail(k, n, p))
  }

  function SortFirstPlan(f: Document, s: Document, k: Value, n: Value, p: Document): seq<Value> {
    [StageOf("$sort", Map(s))] + ([StageOf("$match", Map(f))] + Tail(k, n, p))
  }

  /** What find returns over the same scan when `field` decides the sort. */
  function Found(
      docs: seq<Document>, f: Document, s: Document, k: Value, n: Value, p: Document, field: string): seq<Document>
  {
    ApplyFindOptions(Filter(Passes(Map(f)), docs), FindOptions(p, s, ToInt(k), ToInt(n)), field)
  }

  /** The plan match, sort, skip, limit, project returns exactly what find returns, for
      every sort document: the outputs the two can have are the same. */
  lemma PlanIsFind(docs: seq<Document>, f: Document, s: Document, k: Value, n: Value, p: Document, out: Piped)
    requires ToInt(k) >= 0 && ToInt(n) > 0
    ensures PipelineRuns(docs, FindPlan(f, s, k, n, p), out) <==>
            exists field :: FirstEntry(s, field) && out == Docs(Found(docs, f, s, k, n, p, field))
  {
    var matched := Filter(Passes(Map(f)), docs);
    SimpleStage(docs, "$match", Map(f), [StageOf("$sort", Map(s))] + Tail(k, n, p), out);
    SortFirst(matched, s, Tail(k, n, p), out);
    forall field
      ensures PipelineRuns(SortBy(matched, s, field), Tail(k, n, p), out) <==> out == Docs(Found(docs, f, s, k, n, p, field))
    {
      TailIsPage(SortBy(matched, s, field), k, n, p, out);
      ProjectNothing(Page(SortBy(matched, s, field), ToInt(k), ToInt(n)));
    }
  }

  /** Sorting before matching changes nothing when each sort key that can decide stays
      in one comparable class. */
  lemma SortFirstPlanIsFind(docs: seq<Document>, f: Document, s: Document, k: Value, n: Value, p: Document, out: Piped)
    requires ToInt(k) >= 0 && ToInt(n) > 0
    requires forall field :: field in s && field != "$natural" ==> exists numeric :: KeysInClass(docs, field, numeric)
    ensures PipelineRuns(docs, SortFirstPlan(f, s, k, n, p), out) <==> PipelineRuns(docs, FindPlan(f, s, k, n, p), out)
  {
    PlanIsFind(docs, f, s, k, n, p, out);
    SortFirst(docs, s, [StageOf("$match", Map(f))] + Tail(k, n, p), out);
    forall field
      ensures PipelineRuns(SortBy(docs, s, field), [StageOf("$match", Map(f))] + Tail(k, n, p), out) <==>
              out == Docs(Found(docs, f, s, k, n, p, field))
    {
      var sorted := SortBy(docs, s, field);
      SimpleStage(sorted, "$match", Map(f), Tail(k, n, p), out);
      if field in s && field != "$natural" {
        var numeric :| KeysInClass(docs, field, numeric);
        FilterCommutesWithSort(docs, Map(f), s, field, numeric);
      }
      TailIsPage(Filter(Passes(Map(f)), sorted), k, n, p, out);
      ProjectNothing(Page(Filter(Passes(Map(f)), sorted), ToInt(k), ToInt(n)));
    }
  }
}
