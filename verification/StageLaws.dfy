/** What the stages of a pipeline leave of their input, stated of the stage names and the
    documents (internal/mql/mql.go:84-166, 571-584, 676-734). */
module StageLaws {
  import opened Bson
  import opened GroupLaws
  import opened Groups
  import Matching
  import opened OperatorLaws
  import opened Paths
  import opened Pipelines
  import opened Queries
  import SortLaws
  import opened StableSort
  import Unwinding

  /** `out` is an output of the stage `{name: raw}`. */
  ghost predicate StageGives(docs: seq<Document>, name: string, raw: Value, out: seq<Document>) {
    EntryRuns(docs, StageNamed(name), raw, Docs(out))
  }

  // ----- expressions -----

  /** `"$path"` is the value found there, nil when there is none. */
  lemma PathExpression(doc: Document, path: string)
    requires path != ""
    ensures EvalExpr(doc, Str("$" + path)) == if ValueByPath(doc, path).exists_ then ValueByPath(doc, path).value else Null
  {
    assert ("$" + path)[1..] == path;
  }

  /** Other strings, numbers and the like are themselves. */
  lemma ConstantExpression(doc: Document, v: Value)
    requires !v.Map? || v.m == map[]
    requires v.Str? ==> |v.s| <= 1 || v.s[0] != '$'
    ensures EvalExpr(doc, v) == v
  {
  }

  /** A document is evaluated field by field. */
  lemma DocumentExpression(doc: Document, m: Document, f: string)
    requires f in m
    ensures EvalExpr(doc, Map(m)).Map? && EvalExpr(doc, Map(m)).m.Keys == m.Keys
    ensures EvalExpr(doc, Map(m)).m[f] == EvalExpr(doc, m[f])
  {
  }

  // ----- stages that keep the number of documents -----

  /** `$addFields`, and `$set`, give each named field the value of its expression in the
      document as it was, and leave every other field alone. */
  lemma AddFieldsSets(docs: seq<Document>, name: string, spec: Document, out: seq<Document>, i: nat, f: string)
    requires name in {"$addFields", "$set"} && StageGives(docs, name, Map(spec), out) && i < |docs|
    ensures |out| == |docs|
    ensures Field(out[i], f) == if f in spec then Some(EvalExpr(docs[i], spec[f])) else Field(docs[i], f)
  {
    assert StageNamed(name) == AddFields;
  }

  /** `$unset` removes the named field, or the fields in a list, and no other. */
  lemma UnsetRemoves(docs: seq<Document>, raw: Value, out: seq<Document>, i: nat, f: string)
    requires StageGives(docs, "$unset", raw, out) && i < |docs|
    requires raw.Str? || raw.Array?
    ensures |out| == |docs|
    ensures var named := if raw.Str? then f == raw.s else exists x :: x in raw.a && Sprint(x) == f;
            Field(out[i], f) == if named then None else Field(docs[i], f)
  {
    assert StageNamed("$unset") == Unset;
    assert out[i] == docs[i] - UnsetNames(raw);
    if raw.Array? {
      assert forall j :: 0 <= j < |raw.a| ==> raw.a[j] in raw.a;
      if x :| x in raw.a && Sprint(x) == f {
        var j :| 0 <= j < |raw.a| && raw.a[j] == x;
        assert f in UnsetNames(raw);
      }
    }
  }

  // ----- stages that choose documents -----

  /** `$match` keeps the documents that match, in their order. */
  lemma MatchKeeps(docs: seq<Document>, filter: Value, out: seq<Document>) returns (at: seq<nat>)
    requires StageGives(docs, "$match", filter, out)
    ensures KeptAt(docs, out, at)
    ensures forall n: nat :: n in at <==> n < |docs| && Matching.Matches(docs[n], filter)
  {
    assert StageNamed("$match") == Match;
    at := FilterKeepsOrder(Passes(filter), docs);
  }

  /** `$limit` and `$skip` keep the first `n` documents and the ones behind them. */
  lemma LimitSkipSplit(docs: seq<Document>, n: nat, first: seq<Document>, rest: seq<Document>)
    requires StageGives(docs, "$limit", Int32(n), first) && StageGives(docs, "$skip", Int32(n), rest)
    ensures first + rest == docs && |first| == if n < |docs| then n else |docs|
  {
    assert StageNamed("$limit") == Limit && StageNamed("$skip") == Skip;
    TruncWhole(n);
    assert ToInt(Int32(n)) == n;
  }

  /** A negative bound is a slice bound below zero. */
  lemma NegativeBoundsPanic(docs: seq<Document>, name: string, n: int, out: Piped)
    requires name in {"$limit", "$skip"} && n < 0 && EntryRuns(docs, StageNamed(name), Int32(n), out)
    ensures out.Panics?
  {
    assert StageNamed("$limit") == Limit && StageNamed("$skip") == Skip;
    TruncWhole(n);
    assert ToInt(Int32(n)) == n;
  }

  /** `$sample` with a positive size keeps that many documents from the start. */
  lemma SampleKeeps(docs: seq<Document>, n: int, out: seq<Document>)
    requires StageGives(docs, "$sample", Map(map["size" := Int32(n)]), out)
    ensures out == if 0 < n < |docs| then docs[..n] else docs
  {
    assert StageNamed("$sample") == Sample;
    TruncWhole(n);
    assert ToInt(Int32(n)) == n;
  }

  /** `$count` counts, under the given name, or `count` without one. */
  lemma CountCounts(docs: seq<Document>, raw: Value, out: seq<Document>)
    requires StageGives(docs, "$count", raw, out)
    ensures |out| == 1
    ensures out[0] == map[(if raw.Str? && raw.s != "" then raw.s else "count") := Int64(|docs|)]
  {
    assert StageNamed("$count") == Count;
  }

  // ----- stages that replace documents -----

  predicate HasRoot(doc: Document, expr: Value) {
    EvalExpr(doc, expr).Map?
  }

  /** `$replaceRoot` replaces each document by the document its expression gives, and drops
      the ones for which it gives something else. */
  lemma ReplaceRootGives(docs: seq<Document>, expr: Value, out: seq<Document>) returns (at: seq<nat>)
    requires StageGives(docs, "$replaceRoot", Map(map["newRoot" := expr]), out)
    ensures |out| == |at| && (forall i, j :: 0 <= i < j < |at| ==> at[i] < at[j])
    ensures forall n: nat :: n in at <==> n < |docs| && HasRoot(docs[n], expr)
    ensures forall i :: 0 <= i < |at| ==> at[i] < |docs| && Map(out[i]) == EvalExpr(docs[at[i]], expr)
  {
    assert StageNamed("$replaceRoot") == ReplaceRoot;
    assert out == Roots(docs, expr);
    at := FilterKeepsOrder((doc: Document) => HasRoot(doc, expr), docs);
    RootsAreKept(docs, expr);
    var kept := Filter((doc: Document) => HasRoot(doc, expr), docs);
    assert forall i :: 0 <= i < |at| ==> kept[i] == docs[at[i]];
  }

  lemma {:induction false} RootsAreKept(docs: seq<Document>, expr: Value)
    ensures var kept := Filter((doc: Document) => HasRoot(doc, expr), docs);
            && |Roots(docs, expr)| == |kept|
            && forall i :: 0 <= i < |kept| ==> Map(Roots(docs, expr)[i]) == EvalExpr(kept[i], expr)
    decreases |docs|
  {
    var p := (doc: Document) => HasRoot(doc, expr);
    if docs != [] {
      var init, last := docs[..|docs| - 1], docs[|docs| - 1];
      RootsAreKept(init, expr);
      FilterAppend(p, init, [last]);
      assert init + [last] == docs && [last][1..] == [];
    }
  }

  /** `$unwind` takes the path as a string or in a document. */
  lemma UnwindForms(docs: seq<Document>, field: string, out: seq<Document>)
    requires StageGives(docs, "$unwind", Map(map["path" := Str(field)]), out)
    ensures StageGives(docs, "$unwind", Str(field), out)
  {
    assert StageNamed("$unwind") == Unwind;
  }

  /** `$unwind` turns a document into one copy for each item of the array, in order, with
      the item in its place; without an array there is none. */
  lemma UnwindCopies(doc: Document, field: string, out: seq<Document>)
    requires field != "" && StageGives([doc], "$unwind", Str("$" + field), out)
    ensures var items := AsArray(Lookup(doc, field));
            && |out| == |items|
            && forall i :: 0 <= i < |out| ==> out[i] == doc[field := items[i]]
  {
    assert StageNamed("$unwind") == Unwind;
    assert ("$" + field)[1..] == field;
    assert [doc][..0] == [] && Unwinding.UnwindAll([], field) == [];
    assert out == [] + Unwinding.UnwindOne(doc, field);
  }

  /** It does so document by document. */
  lemma UnwindOneByOne(docs: seq<Document>, doc: Document, raw: Value, a: seq<Document>, b: seq<Document>, c: seq<Document>)
    requires StageGives(docs, "$unwind", raw, a) && StageGives([doc], "$unwind", raw, b)
    requires StageGives(docs + [doc], "$unwind", raw, c)
    ensures c == a + b
  {
    assert StageNamed("$unwind") == Unwind;
    var path := Unwinding.UnwindPath(raw);
    assert (docs + [doc])[..|docs|] == docs && [doc][..0] == [];
    assert Unwinding.UnwindAll([doc], path) == [] + Unwinding.UnwindOne(doc, path);
    assert [] + Unwinding.UnwindOne(doc, path) == Unwinding.UnwindOne(doc, path);
    assert Unwinding.UnwindAll(docs + [doc], path) == Unwinding.UnwindAll(docs, path) + Unwinding.UnwindOne(doc, path);
  }

  /** Without a path it leaves the documents alone. */
  lemma UnwindNothing(docs: seq<Document>, raw: Value, out: seq<Document>)
    requires StageGives(docs, "$unwind", raw, out)
    requires raw == Str("") || raw == Str("$") || (!raw.Str? && !raw.Map?)
    ensures out == docs
  {
    assert StageNamed("$unwind") == Unwind;
    assert "$"[1..] == "";
    assert Unwinding.UnwindPath(raw) == "";
  }

  /** A group is the documents whose id expression has one value, as its Go syntax tells
      values apart, in input order. */
  lemma GroupIsOneId(docs: seq<Document>, key: string, id: Value) returns (at: seq<nat>)
    ensures KeptAt(docs, Members(docs, key, id), at)
    ensures forall n: nat :: n in at <==> n < |docs| && GoSyntax(EvalExpr(docs[n], id)) == key
    ensures key in GroupKeys(docs, id) <==> at != []
  {
    at := FilterKeepsOrder(InGroup(key, id), docs);
    if key in GroupKeys(docs, id) {
      var i :| 0 <= i < |docs| && GroupKey(docs[i], id) == key;
      assert i in at;
    }
    if at != [] {
      assert at[0] in at;
    }
  }

  /** `$sortByCount` returns one document for each value of the expression: the value and
      the number of its documents, the largest numbers first. */
  lemma SortByCountDescends(docs: seq<Document>, expr: Value, out: seq<Document>)
    returns (order: seq<string>, grouped: seq<Document>)
    requires StageGives(docs, "$sortByCount", expr, out)
    ensures EachReports(docs, expr, "count", "$sum", Int32(1), order, grouped) && multiset(out) == multiset(grouped)
    ensures SortLaws.NumbersInOrder(SortLaws.Keys(out, "count"), true)
  {
    hide EachReports;
    assert StageNamed("$sortByCount") == SortByCount;
    var spec := CountSpec(expr);
    grouped :| GroupsTo(docs, spec, grouped) && Docs(out) == Docs(SortBy(grouped, BY_COUNT, "count"));
    assert AsMap(spec["count"]) == map["$sum" := Int32(1)] && Lookup(spec, "_id") == expr;
    order := GroupsReport(docs, spec, "count", "$sum", Int32(1), grouped);
    CountsAreNumbers(docs, expr, order, grouped);
    SortLaws.SortByOne(grouped, "count", Int32(-1), "count", 0, 0);
    assert BY_COUNT == map["count" := Int32(-1)] && ToFloat(Int32(-1)) < 0.0;
  }

  lemma CountsAreNumbers(docs: seq<Document>, expr: Value, order: seq<string>, grouped: seq<Document>)
    requires EachReports(docs, expr, "count", "$sum", Int32(1), order, grouped)
    ensures SortLaws.AllNumbers(SortLaws.Keys(grouped, "count"))
  {
    var keys := SortLaws.Keys(grouped, "count");
    forall v | v in keys ensures IsNumber(v) {
      var i :| 0 <= i < |keys| && keys[i] == v;
      PlainPath(grouped[i], "count");
      assert Reports("$sum", grouped[i]["count"], Values(Members(docs, order[i], expr), Int32(1)));
    }
  }

  /** `$planCacheStats` answers a constant; any other name is refused. */
  lemma OtherStages(docs: seq<Document>, name: string, raw: Value, out: Piped)
    requires EntryRuns(docs, StageNamed(name), raw, out)
    ensures name == "$planCacheStats" ==>
              out == Docs([map["createdFromQuery" := Map(map[]), "works" := Int32(0)]])
    ensures name !in STAGES ==> out.Failed?
  {
  }

  /** The other stages answer documents whatever their operand. */
  lemma KnownStagesAnswer(docs: seq<Document>, name: string, raw: Value, out: Piped)
    requires name in STAGES && name !in {"$limit", "$skip", "$group"}
    requires EntryRuns(docs, StageNamed(name), raw, out)
    ensures out.Docs?
  {
    hide StageNamed;
    StageNames(name);
  }

  lemma StageNames(name: string)
    ensures StageNamed(name) == Stage.Unsupported <==> name !in STAGES
    ensures StageNamed(name) in {Limit, Skip, GroupStage} <==> name in {"$limit", "$skip", "$group"}
  {
  }

  const STAGES: set<string> :=
    {"$match", "$limit", "$skip", "$sort", "$project", "$addFields", "$set", "$unset", "$unwind", "$count", "$group",
     "$sortByCount", "$replaceRoot", "$sample", "$planCacheStats"}
}
