/** What a projection leaves of each document, field by field
    (internal/mql/mql.go:528-569). */
module ProjectionLaws {
  import opened Bson
  import opened Paths
  import opened Pipelines
  import opened Queries

  /** The field is set to zero. */
  predicate SetToZero(spec: Document, f: string) {
    f in spec && ToFloat(spec[f]) == 0.0
  }

  /** Some field but `_id` is set to something else than zero. */
  predicate Includes(spec: Document) {
    exists f | f in spec :: f != "_id" && ToFloat(spec[f]) != 0.0
  }

  lemma OneByOne(docs: seq<Document>, spec: Document, out: seq<Document>)
    requires EntryRuns(docs, StageNamed("$project"), Map(spec), Docs(out))
    ensures out == Project(docs, spec) && |out| == |docs|
    ensures forall i :: 0 <= i < |docs| ==> out[i] == Projected(docs[i], spec)
  {
    assert StageNamed("$project") == ProjectStage;
  }

  /** An exclusion drops the fields set to zero, and nothing else. */
  lemma ExclusionDrops(docs: seq<Document>, spec: Document, out: seq<Document>, i: nat, f: string)
    requires EntryRuns(docs, StageNamed("$project"), Map(spec), Docs(out)) && !Includes(spec)
    requires i < |docs|
    ensures |out| == |docs|
    ensures Field(out[i], f) == if SetToZero(spec, f) then None else Field(docs[i], f)
  {
    OneByOne(docs, spec, out);
    assert !IncludeMode(spec);
  }

  /** An inclusion keeps the paths set to something else than zero, with the values found
      there, and `_id` unless it is set to zero. */
  lemma InclusionKeeps(docs: seq<Document>, spec: Document, out: seq<Document>, i: nat, f: string)
    requires EntryRuns(docs, StageNamed("$project"), Map(spec), Docs(out)) && Includes(spec)
    requires i < |docs|
    ensures |out| == |docs|
    ensures f != "_id" ==>
              Field(out[i], f) ==
              if f in spec && !SetToZero(spec, f) && ValueByPath(docs[i], f).exists_
              then Some(ValueByPath(docs[i], f).value) else None
    ensures f == "_id" ==> Field(out[i], f) == if SetToZero(spec, f) then None else Field(docs[i], f)
  {
    OneByOne(docs, spec, out);
    assert IncludeMode(spec);
    PlainPath(docs[i], "_id");
  }

  /** A find projects the page it answers in the same way. */
  lemma FindProjects(docs: seq<Document>, opts: FindOptions, field: string)
    ensures opts.projection != map[] ==>
              EntryRuns(
                ApplyFindOptions(docs, opts.(projection := map[]), field), StageNamed("$project"), Map(opts.projection),
                Docs(ApplyFindOptions(docs, opts, field)))
  {
    assert StageNamed("$project") == ProjectStage;
  }
}
