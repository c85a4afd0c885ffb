/** Find post-processing: sort, skip, limit, project
    (`ApplyFindOptions`, `sortDocs` and `project` in internal/mql/mql.go). */
module Queries {
  import opened Bson
  import Matching
  import opened Ordering
  import opened Paths
  import opened StableSort

  datatype FindOptions = FindOptions(projection: Document, sort: Document, skip: int, limit: int)

  // ----- sort -----

  /** The entry of the sort document that the map iteration yields first; the engine
      uses no other. */
  predicate FirstEntry(spec: Document, field: string) {
    spec == map[] || field in spec
  }

  function SortBy(docs: seq<Document>, spec: Document, field: string): seq<Document> {
    if field !in spec || field == "$natural" then docs
    else Sort(DocLess(field, ToFloat(spec[field]) < 0.0), docs)
  }

  method SortDocs(a: array<Document>, spec: Document) returns (ghost field: string)
    modifies a
    ensures FirstEntry(spec, field)
    ensures a[..] == SortBy(old(a[..]), spec, field)
  {
    field := "";
    if spec.Keys == {} {
      return;
    }
    var first :| first in spec.Keys;
    field := first;
    if first == "$natural" {
      return;
    }
    SortInPlace(DocLess(first, ToFloat(spec[first]) < 0.0), a);
  }

  // ----- skip and limit -----

  function Page<T>(docs: seq<T>, skip: int, limit: int): seq<T> {
    var rest := if skip <= 0 then docs else if skip >= |docs| then [] else docs[skip..];
    if 0 < limit < |rest| then rest[..limit] else rest
  }

  // ----- projection -----

  /** Any field but `_id` with a non-zero value switches to inclusion. */
  predicate IncludeMode(spec: Document) {
    exists field | field in spec :: field != "_id" && ToFloat(spec[field]) != 0.0
  }

  predicate Zero(spec: Document, field: string) {
    field in spec && ToFloat(spec[field]) == 0.0
  }

  predicate Included(doc: Document, spec: Document, field: string) {
    if field == "_id" then !Zero(spec, "_id") && "_id" in doc
    else field in spec && !Zero(spec, field) && ValueByPath(doc, field).exists_
  }

  function Projected(doc: Document, spec: Document): Document {
    if IncludeMode(spec) then
      map field | field in spec.Keys + {"_id"} && Included(doc, spec, field) :: ValueByPath(doc, field).value
    else
      map field | field in doc && !Zero(spec, field) :: doc[field]
  }

  function Project(docs: seq<Document>, spec: Document): seq<Document> {
    MapSeq(doc => Projected(doc, spec), docs)
  }

  method ProjectLoop(docs: seq<Document>, spec: Document) returns (projected: seq<Document>)
    ensures projected == Project(docs, spec)
  {
    projected := [];
    var includeMode := IncludeMode(spec);
    for i := 0 to |docs|
      invariant projected == Project(docs[..i], spec)
    {
      var next;
      if includeMode {
        next := IncludeFields(docs[i], spec);
      } else {
        next := ExcludeFields(docs[i], spec);
      }
      projected := projected + [next];
    }
    assert docs[..|docs|] == docs;
  }

  method ExcludeFields(doc: Document, spec: Document) returns (next: Document)
    requires !IncludeMode(spec)
    ensures next == Projected(doc, spec)
  {
    next := doc;
    var todo := spec.Keys;
    while todo != {}
      invariant todo <= spec.Keys
      invariant forall k :: k in next <==> k in doc && (k in todo || !Zero(spec, k))
      invariant forall k :: k in next ==> next[k] == doc[k]
      decreases todo
    {
      var field :| field in todo;
      todo := todo - {field};
      if ToFloat(spec[field]) == 0.0 {
        next := next - {field};
      }
    }
  }

  method IncludeFields(doc: Document, spec: Document) returns (next: Document)
    requires IncludeMode(spec)
    ensures next == Projected(doc, spec)
  {
    hide Projected, IncludeMode;
    PlainPath(doc, "_id");
    next := map[];
    var includeID := true;
    var todo := spec.Keys;
    while todo != {}
      invariant todo <= spec.Keys
      invariant includeID == !("_id" !in todo && Zero(spec, "_id"))
      invariant forall k :: k in next <==> k in spec && k !in todo && Included(doc, spec, k)
      invariant forall k :: k in next ==> next[k] == ValueByPath(doc, k).value
      decreases todo
    {
      var field :| field in todo;
      todo := todo - {field};
      if ToFloat(spec[field]) == 0.0 {
        if field == "_id" {
          includeID := false;
        }
      } else {
        var found := ValueByPathLoop(doc, field);
        if found.exists_ {
          next := next[field := found.value];
        }
      }
    }
    ghost var fields := next;
    if includeID && "_id" in doc {
      next := next["_id" := doc["_id"]];
    }
    IncludedFields(doc, spec, fields, next);
  }

  /** The non-zero fields that exist, and `_id` unless it is zero. */
  lemma IncludedFields(doc: Document, spec: Document, fields: Document, next: Document)
    requires IncludeMode(spec)
    requires forall k :: k in fields <==> k in spec && Included(doc, spec, k)
    requires forall k :: k in fields ==> fields[k] == ValueByPath(doc, k).value
    requires next == if !Zero(spec, "_id") && "_id" in doc then fields["_id" := doc["_id"]] else fields
    ensures next == Projected(doc, spec)
  {
    PlainPath(doc, "_id");
  }

  // ----- all together -----

  /** The result when `field` is the entry that decides the sort. */
  function ApplyFindOptions(docs: seq<Document>, opts: FindOptions, field: string): seq<Document> {
    var page := Page(SortBy(docs, opts.sort, field), opts.skip, opts.limit);
    if opts.projection == map[] then page else Project(page, opts.projection)
  }

  method ApplyFindOptionsLoop(input: seq<Document>, opts: FindOptions) returns (docs: seq<Document>)
    ensures exists field :: FirstEntry(opts.sort, field) && docs == ApplyFindOptions(input, opts, field)
  {
    var a := new Document[|input|](i requires 0 <= i < |input| => input[i]);
    assert a[..] == input;
    ghost var field := SortDocs(a, opts.sort);
    docs := a[..];
    if opts.skip > 0 {
      if opts.skip >= |docs| {
        docs := [];
      } else {
        docs := docs[opts.skip..];
      }
    }
    if 0 < opts.limit < |docs| {
      docs := docs[..opts.limit];
    }
    if opts.projection != map[] {
      docs := ProjectLoop(docs, opts.projection);
    }
    assert docs == ApplyFindOptions(input, opts, field);
  }

  // ----- laws -----

  /** Projecting twice is projecting once, for exclusions and for inclusions of top-level
      fields; an inclusion keeps no field but the included ones and `_id`. */
  lemma ProjectTwice(doc: Document, spec: Document)
    requires IncludeMode(spec) ==> forall field :: field in spec ==> '.' !in field
    ensures Projected(Projected(doc, spec), spec) == Projected(doc, spec)
    ensures IncludeMode(spec) ==> Projected(doc, spec).Keys <= spec.Keys + {"_id"}
    ensures !IncludeMode(spec) ==> Projected(doc, spec).Keys <= doc.Keys
  {
    if IncludeMode(spec) {
      var once := Projected(doc, spec);
      forall field | field in spec.Keys + {"_id"}
        ensures Included(once, spec, field) == Included(doc, spec, field)
        ensures Included(doc, spec, field) ==> ValueByPath(once, field) == ValueByPath(doc, field)
      {
        PlainPath(once, field);
        PlainPath(doc, field);
      }
    }
  }

  /** A projection of nothing but `_id` excludes nothing. */
  lemma OnlyIdKeepsEverything(doc: Document, flag: Value)
    ensures ToFloat(flag) != 0.0 ==> Projected(doc, map["_id" := flag]) == doc
    ensures ToFloat(flag) == 0.0 ==> Projected(doc, map["_id" := flag]) == doc - {"_id"}
  {
    assert !IncludeMode(map["_id" := flag]);
  }

  function Passes(filter: Value): Document -> bool {
    doc => Matching.Matches(doc, filter)
  }

  ghost predicate KeysInClass(docs: seq<Document>, field: string, numeric: bool) {
    All(KeyInClass(field, numeric), docs)
  }

  /** Filtering before or after the sort makes no difference inside one class. */
  lemma FilterCommutesWithSort(docs: seq<Document>, filter: Value, spec: Document, field: string, numeric: bool)
    requires KeysInClass(docs, field, numeric)
    ensures Filter(Passes(filter), SortBy(docs, spec, field)) == SortBy(Filter(Passes(filter), docs), spec, field)
  {
    if field in spec && field != "$natural" {
      var desc := ToFloat(spec[field]) < 0.0;
      DocLessIsWeakOrder(field, desc, numeric);
      FilterOfSort(DocLess(field, desc), KeyInClass(field, numeric), Passes(filter), docs);
    }
  }

  /** When no two documents tie on the sort key, the order they are visited in cannot
      be seen in the result. */
  lemma SortForgetsScanOrder(docs: seq<Document>, other: seq<Document>, spec: Document, field: string, numeric: bool)
    requires multiset(docs) == multiset(other)
    requires field in spec && field != "$natural"
    requires KeysInClass(docs, field, numeric)
    requires NoTies(DocLess(field, ToFloat(spec[field]) < 0.0), docs)
    ensures SortBy(docs, spec, field) == SortBy(other, spec, field)
  {
    var desc := ToFloat(spec[field]) < 0.0;
    DocLessIsWeakOrder(field, desc, numeric);
    SortOrderIndependent(DocLess(field, desc), KeyInClass(field, numeric), docs, other);
  }

  /** Where page `i` starts: 0, size, 2 size, ... */
  function PageStart(i: nat, size: nat): nat {
    if i == 0 then 0 else PageStart(i - 1, size) + size
  }

  /** Consecutive pages put together are a prefix, and all of it once they reach its end. */
  lemma {:induction false} PagesConcatenate<T>(docs: seq<T>, size: nat, pages: seq<seq<T>>)
    requires size > 0
    requires forall i :: 0 <= i < |pages| ==> pages[i] == Page(docs, PageStart(i, size), size)
    ensures Flatten(pages) == Take(PageStart(|pages|, size), docs)
    decreases |pages|
  {
    if pages != [] {
      var n := |pages| - 1;
      PagesConcatenate(docs, size, pages[..n]);
      PageExtends(docs, PageStart(n, size), size);
    }
  }

  lemma PageExtends<T>(docs: seq<T>, from: nat, size: nat)
    requires size > 0
    ensures Take(from, docs) + Page(docs, from, size) == Take(from + size, docs)
  {
  }
}
