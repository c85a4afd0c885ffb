/** Whether the arbitrary order in which the memory store visits a collection can be seen
    in a sorted find, and whether the pages of a sorted find fit together
    (internal/backend/memory/memory.go:112-138, 240-250, internal/mql/mql.go:61-81, 657-674). */
module Paging {
  import opened Bson
  import opened Enumerations
  import opened Collections
  import opened Keys
  import opened Matching
  import opened Ordering
  import opened Pipelines
  import opened Queries
  import Refinement
  import opened StableSort

  // ----- visiting orders are permutations -----

  function DocAt(c: Coll): string -> Document {
    k => if k in c then c[k] else map[]
  }

  lemma ScansPermute(c: Coll, order: seq<string>, other: seq<string>, filter: Value)
    requires Enumerates(order, c.Keys) && Enumerates(other, c.Keys)
    ensures multiset(Filter(Passes(filter), DocsAt(c, order))) == multiset(Filter(Passes(filter), DocsAt(c, other)))
  {
    EnumerationsPermute(order, other, c.Keys);
    MapPermutes(DocAt(c), order, other);
    AsMapSeq(c, order);
    AsMapSeq(c, other);
    FilterMultiset(Passes(filter), DocsAt(c, order), DocsAt(c, other));
  }

  lemma AsMapSeq(c: Coll, order: seq<string>)
    requires forall k :: k in order ==> k in c
    ensures DocsAt(c, order) == MapSeq(DocAt(c), order)
  {
    assert forall i :: 0 <= i < |order| ==> order[i] in order;
  }

  // ----- when the visiting order shows -----

  /** The sort keys of the matching documents are in one comparable class. */
  ghost predicate InOneClass(c: Coll, filter: Document, field: string, numeric: bool) {
    forall k :: k in MatchSet(c, filter) ==> KeyInClass(field, numeric)(c[k])
  }

  /** No two matching documents have equal sort keys. */
  ghost predicate DistinctKeys(c: Coll, filter: Document, field: string) {
    forall k, l :: k in MatchSet(c, filter) && l in MatchSet(c, filter) && k != l ==>
      !Equal(SortKey(c[k], field), SortKey(c[l], field))
  }

  function SortedFind(filter: Document, spec: Document, skip: int, limit: int): FindRequest {
    FindRequest(filter, FindOptions(map[], spec, skip, limit))
  }

  /** The find has one answer, whatever the map order. */
  ghost predicate OneAnswer(c: Coll, req: FindRequest) {
    forall out, other :: MemFind(c, req, out) && MemFind(c, req, other) ==> out == other
  }

  /** The sort document has the one entry `field`, which is not `$natural`. */
  predicate SortsBy(spec: Document, field: string) {
    spec.Keys == {field} && field != "$natural"
  }

  lemma Untied(x: Document, y: Document, field: string, desc: bool)
    ensures DocLess(field, desc)(x, y) || DocLess(field, desc)(y, x) <==> !Equal(SortKey(x, field), SortKey(y, field))
  {
    var a, b := SortKey(x, field), SortKey(y, field);
    assert DocLess(field, desc)(x, y) == ValueLess(desc)(a, b) && DocLess(field, desc)(y, x) == ValueLess(desc)(b, a);
    CompareAgreesWithEqual(a, b);
  }

  lemma UntiedKeys(c: Coll, keys: seq<string>, field: string, desc: bool)
    requires NoRepeats(keys) && forall k :: k in keys ==> k in c
    requires forall k, l :: k in keys && l in keys && k != l ==> !Equal(SortKey(c[k], field), SortKey(c[l], field))
    ensures NoTies(DocLess(field, desc), DocsAt(c, keys))
  {
    var docs := DocsAt(c, keys);
    forall i, j | 0 <= i < j < |docs|
      ensures DocLess(field, desc)(docs[i], docs[j]) || DocLess(field, desc)(docs[j], docs[i])
    {
      assert keys[i] in keys && keys[j] in keys && keys[i] != keys[j];
      Untied(docs[i], docs[j], field, desc);
    }
  }

  lemma UntiedDocs(c: Coll, order: seq<string>, filter: Document, field: string, desc: bool)
    requires Enumerates(order, c.Keys) && DistinctKeys(c, filter, field)
    ensures NoTies(DocLess(field, desc), Filter(Passes(Map(filter)), DocsAt(c, order)))
  {
    var keys := Refinement.MatchingKeys(c, order, filter);
    Refinement.MatchingKeysMatch(c, order, filter);
    Refinement.MatchingKeysFilter(c, order, filter);
    UntiedKeys(c, keys, field, desc);
  }

  lemma ClassOfDocs(c: Coll, order: seq<string>, filter: Document, field: string, numeric: bool)
    requires Enumerates(order, c.Keys) && InOneClass(c, filter, field, numeric)
    ensures KeysInClass(Filter(Passes(Map(filter)), DocsAt(c, order)), field, numeric)
  {
    var docs := DocsAt(c, order);
    FilterMembers(Passes(Map(filter)), docs);
    forall doc | doc in Filter(Passes(Map(filter)), docs) ensures KeyInClass(field, numeric)(doc) {
      var i :| 0 <= i < |docs| && docs[i] == doc;
      assert order[i] in order;
      assert order[i] in MatchSet(c, filter);
    }
  }

  /** The sorted matches that a visiting order leads to. */
  function SortedMatches(c: Coll, order: seq<string>, filter: Document, spec: Document, field: string): seq<Document>
    requires forall k :: k in order ==> k in c
  {
    SortBy(Filter(Passes(Map(filter)), DocsAt(c, order)), spec, field)
  }

  lemma OrderForgotten(
      c: Coll, order: seq<string>, other: seq<string>, filter: Document, spec: Document, field: string, numeric: bool)
    requires SortsBy(spec, field)
    requires InOneClass(c, filter, field, numeric) && DistinctKeys(c, filter, field)
    requires Enumerates(order, c.Keys) && Enumerates(other, c.Keys)
    ensures SortedMatches(c, order, filter, spec, field) == SortedMatches(c, other, filter, spec, field)
  {
    ScansPermute(c, order, other, Map(filter));
    UntiedDocs(c, order, filter, field, ToFloat(spec[field]) < 0.0);
    ClassOfDocs(c, order, filter, field, numeric);
    SortForgetsScanOrder(Filter(Passes(Map(filter)), DocsAt(c, order)), Filter(Passes(Map(filter)), DocsAt(c, other)),
                         spec, field, numeric);
  }

  /** Every answer to a sorted find is a page of the matches sorted over the key order. */
  lemma AnswerIsPage(
      c: Coll, filter: Document, spec: Document, field: string, numeric: bool, skip: int, limit: int, out: seq<Document>)
    requires SortsBy(spec, field)
    requires InOneClass(c, filter, field, numeric) && DistinctKeys(c, filter, field)
    requires MemFind(c, SortedFind(filter, spec, skip, limit), out)
    ensures out == Page(SortedMatches(c, ScanOrder(c.Keys), filter, spec, field), skip, limit)
  {
    var req := SortedFind(filter, spec, skip, limit);
    var order, first :|
      && Enumerates(order, c.Keys)
      && FirstEntry(req.options.sort, first)
      && out == ApplyFindOptions(Filter(Passes(Map(req.filter)), DocsAt(c, order)), req.options, first);
    assert first in spec.Keys;
    assert field in spec.Keys;
    OrderForgotten(c, order, ScanOrder(c.Keys), filter, spec, field, numeric);
  }

  lemma AnswerExists(c: Coll, order: seq<string>, filter: Document, spec: Document, field: string)
    requires SortsBy(spec, field) && Enumerates(order, c.Keys)
    ensures MemFind(c, SortedFind(filter, spec, 0, 0), SortedMatches(c, order, filter, spec, field))
  {
    assert field in spec.Keys;
    var req := SortedFind(filter, spec, 0, 0);
    assert FirstEntry(req.options.sort, field);
  }

  /** The first two documents of a scan, when they match and tie. */
  lemma TieStaysFirst(x: Document, y: Document, rest: seq<Document>, field: string, desc: bool, numeric: bool)
    requires KeysInClass([x, y] + rest, field, numeric)
    requires Equal(SortKey(x, field), SortKey(y, field))
    ensures var less := DocLess(field, desc);
            var ties := Ties(less, x, Sort(less, [x, y] + rest));
            ties != [] && ties[0] == x
    ensures var less := DocLess(field, desc);
            var ties := Ties(less, y, Sort(less, [x, y] + rest));
            ties != [] && ties[0] == x
  {
    var less, docs := DocLess(field, desc), [x, y] + rest;
    DocLessIsWeakOrder(field, desc, numeric);
    SortIsStable(less, KeyInClass(field, numeric), docs);
    Untied(x, y, field, desc);
    Untied(x, x, field, desc);
    assert docs[0] == x && docs[1] == y;
    assert x in docs && y in docs;
    assert Ties(less, x, docs)[0] == x;
    assert Ties(less, y, docs)[0] == x;
  }

  lemma TwoFirst(c: Coll, k: string, l: string, filter: Document) returns (rest: seq<string>)
    requires k in MatchSet(c, filter) && l in MatchSet(c, filter) && k != l
    ensures Enumerates([k, l] + rest, c.Keys) && Enumerates([l, k] + rest, c.Keys)
    ensures var docs := Filter(Passes(Map(filter)), DocsAt(c, [k, l] + rest));
            && |docs| >= 2 && docs[0] == c[k] && docs[1] == c[l]
            && Filter(Passes(Map(filter)), DocsAt(c, [l, k] + rest)) == [c[l], c[k]] + docs[2..]
  {
    rest := ScanOrder(c.Keys - {k, l});
    assert Enumerates([k, l] + rest, c.Keys) by { PutTwoFirst(c.Keys, k, l, rest); }
    assert Enumerates([l, k] + rest, c.Keys) by { PutTwoFirst(c.Keys, l, k, rest); }
    ScanOfTwo(c, k, l, rest, filter);
    ScanOfTwo(c, l, k, rest, filter);
  }

  lemma PutTwoFirst(keys: set<string>, k: string, l: string, rest: seq<string>)
    requires k in keys && l in keys && k != l && Enumerates(rest, keys - {k, l})
    ensures Enumerates([k, l] + rest, keys)
  {
    var order := [k, l] + rest;
    assert forall x :: x in order <==> x == k || x == l || x in rest;
    forall i, j | 0 <= i < j < |order| ensures order[i] != order[j] {
      assert j >= 2 ==> order[j] == rest[j - 2] && order[j] in rest;
      assert i >= 2 ==> order[i] == rest[i - 2];
    }
  }

  lemma ScanOfTwo(c: Coll, k: string, l: string, rest: seq<string>, filter: Document)
    requires forall x :: x in [k, l] + rest ==> x in c
    requires Matches(c[k], Map(filter)) && Matches(c[l], Map(filter))
    requires forall x :: x in rest ==> x in c
    ensures Filter(Passes(Map(filter)), DocsAt(c, [k, l] + rest)) ==
            [c[k], c[l]] + Filter(Passes(Map(filter)), DocsAt(c, rest))
  {
    assert DocsAt(c, [k, l] + rest) == [c[k], c[l]] + DocsAt(c, rest);
    FilterAppend(Passes(Map(filter)), [c[k], c[l]], DocsAt(c, rest));
    FilterAll(Passes(Map(filter)), [c[k], c[l]]);
  }

  /** A tie shows: visiting the two documents in the other order swaps them. */
  lemma TieShows(c: Coll, filter: Document, spec: Document, field: string, numeric: bool, k: string, l: string)
    requires SortsBy(spec, field) && InOneClass(c, filter, field, numeric)
    requires k in MatchSet(c, filter) && l in MatchSet(c, filter)
    requires c[k] != c[l] && Equal(SortKey(c[k], field), SortKey(c[l], field))
    ensures !OneAnswer(c, SortedFind(filter, spec, 0, 0))
  {
    var desc := ToFloat(spec[field]) < 0.0;
    var rest := TwoFirst(c, k, l, filter);
    var docs := Filter(Passes(Map(filter)), DocsAt(c, [k, l] + rest));
    assert docs == [c[k], c[l]] + docs[2..];
    ClassOfDocs(c, [k, l] + rest, filter, field, numeric);
    ClassOfDocs(c, [l, k] + rest, filter, field, numeric);
    TieStaysFirst(c[k], c[l], docs[2..], field, desc, numeric);
    TieStaysFirst(c[l], c[k], docs[2..], field, desc, numeric);
    AnswerExists(c, [k, l] + rest, filter, spec, field);
    AnswerExists(c, [l, k] + rest, filter, spec, field);
    assert field in spec.Keys;
    assert SortedMatches(c, [k, l] + rest, filter, spec, field) != SortedMatches(c, [l, k] + rest, filter, spec, field);
  }

  /** Within one comparable class a sorted find has one answer, whatever the map order,
      exactly when no two matching documents have equal sort keys. */
  lemma OrderShowsThroughTies(c: Coll, filter: Document, spec: Document, field: string, numeric: bool)
    requires KeyInvariant(c) && SortsBy(spec, field) && InOneClass(c, filter, field, numeric)
    ensures OneAnswer(c, SortedFind(filter, spec, 0, 0)) <==> DistinctKeys(c, filter, field)
    ensures DistinctKeys(c, filter, field) ==> forall skip, limit :: OneAnswer(c, SortedFind(filter, spec, skip, limit))
  {
    if DistinctKeys(c, filter, field) {
      forall skip, limit ensures OneAnswer(c, SortedFind(filter, spec, skip, limit)) {
        forall out | MemFind(c, SortedFind(filter, spec, skip, limit), out)
          ensures out == Page(SortedMatches(c, ScanOrder(c.Keys), filter, spec, field), skip, limit)
        {
          AnswerIsPage(c, filter, spec, field, numeric, skip, limit, out);
        }
      }
    } else {
      var k, l :|
        k in MatchSet(c, filter) && l in MatchSet(c, filter) && k != l && Equal(SortKey(c[k], field), SortKey(c[l], field));
      assert DocumentIDKey(c[k]) == Ok(k) && DocumentIDKey(c[l]) == Ok(l);
      TieShows(c, filter, spec, field, numeric, k, l);
    }
  }

  // ----- pages -----

  /** Pages fetched one by one, each with its own map order, put together give the whole
      sorted result: every matching document once, in order. */
  lemma PagesFit(
      c: Coll, filter: Document, spec: Document, field: string, numeric: bool, size: nat, pages: seq<seq<Document>>,
      whole: seq<Document>)
    requires size > 0 && SortsBy(spec, field)
    requires InOneClass(c, filter, field, numeric) && DistinctKeys(c, filter, field)
    requires forall i :: 0 <= i < |pages| ==> MemFind(c, SortedFind(filter, spec, PageStart(i, size), size), pages[i])
    requires MemFind(c, SortedFind(filter, spec, 0, 0), whole)
    ensures Flatten(pages) == Take(PageStart(|pages|, size), whole)
    ensures multiset(whole) == multiset(Filter(Passes(Map(filter)), Scan(c)))
  {
    AnswerIsPage(c, filter, spec, field, numeric, 0, 0, whole);
    forall i | 0 <= i < |pages| ensures pages[i] == Page(whole, PageStart(i, size), size) {
      AnswerIsPage(c, filter, spec, field, numeric, PageStart(i, size), size, pages[i]);
    }
    PagesConcatenate(whole, size, pages);
    assert field in spec.Keys;
    SortPermutes(DocLess(field, ToFloat(spec[field]) < 0.0), [], Filter(Passes(Map(filter)), Scan(c)));
  }

  /** What some sorting function makes of a comparator and a slice. */
  type Sorter = (Less<Document>, seq<Document>) -> seq<Document>

  function StableSorter(less: Less<Document>, docs: seq<Document>): seq<Document> {
    Sort(less, docs)
  }

  function SortByWith(sorter: Sorter, docs: seq<Document>, spec: Document, field: string): seq<Document> {
    if field !in spec || field == "$natural" then docs
    else sorter(DocLess(field, ToFloat(spec[field]) < 0.0), docs)
  }

  /** A find on TiDB that sorts with `sorter`. */
  ghost predicate TidbFindWith(sorter: Sorter, t: Coll, req: FindRequest, res: Result<seq<Document>>) {
    var q := BuildFindSQL(req);
    if q.Err? then res.Err?
    else exists field ::
      FirstEntry(req.options.sort, field) && res == Ok(ProcessWith(sorter, Rows(t, q.value), req, field))
  }

  function ProcessWith(sorter: Sorter, rows: seq<Document>, req: FindRequest, field: string): seq<Document> {
    var docs := SortByWith(sorter, Filter(Passes(Map(req.filter)), rows), req.options.sort, field);
    var page := Page(docs, req.options.skip, req.options.limit);
    if req.options.projection == map[] then page else Project(page, req.options.projection)
  }

  /** `TidbFind` is the find that sorts with `Sort`. */
  lemma SortIsASorter(t: Coll, req: FindRequest, res: Result<seq<Document>>)
    ensures TidbFind(t, req, res) <==> TidbFindWith(StableSorter, t, req, res)
  {
    forall rows, field ensures PostProcess(rows, req, field) == ProcessWith(StableSorter, rows, req, field) {
    }
  }

  /** On TiDB the scan order is fixed, so with any fixed sorting function, stable or not,
      pages fit together also when keys tie or come from several classes. */
  lemma TidbPagesFit(
      sorter: Sorter, t: Coll, filter: Document, spec: Document, field: string, size: nat, pages: seq<seq<Document>>)
    requires size > 0 && SortsBy(spec, field)
    requires forall i :: 0 <= i < |pages| ==>
               TidbFindWith(sorter, t, SortedFind(filter, spec, PageStart(i, size), size), Ok(pages[i]))
    ensures var whole := SortByWith(sorter, Filter(Passes(Map(filter)), Scan(t)), spec, field);
            && TidbFindWith(sorter, t, SortedFind(filter, spec, 0, 0), Ok(whole))
            && Flatten(pages) == Take(PageStart(|pages|, size), whole)
  {
    var whole := SortByWith(sorter, Filter(Passes(Map(filter)), Scan(t)), spec, field);
    TidbAnswerIsPage(sorter, t, filter, spec, field, 0, 0, whole);
    forall i | 0 <= i < |pages| ensures pages[i] == Page(whole, PageStart(i, size), size) {
      TidbAnswerIsPage(sorter, t, filter, spec, field, PageStart(i, size), size, pages[i]);
    }
    PagesConcatenate(whole, size, pages);
  }

  lemma TidbAnswerIsPage(
      sorter: Sorter, t: Coll, filter: Document, spec: Document, field: string, skip: nat, limit: nat, out: seq<Document>)
    requires SortsBy(spec, field)
    ensures TidbFindWith(sorter, t, SortedFind(filter, spec, skip, limit), Ok(out)) <==>
            out == Page(SortByWith(sorter, Filter(Passes(Map(filter)), Scan(t)), spec, field), skip, limit)
  {
    var req := SortedFind(filter, spec, skip, limit);
    assert field in spec.Keys;
    assert spec != map[];
    assert BuildFindSQL(req) == Ok(Query(None, 0));
    assert FirstEntry(spec, field);
    forall first | FirstEntry(spec, first) ensures first == field {
      assert first in spec.Keys;
    }
  }

  // ----- aggregation over a store -----

  /** On the memory store an aggregation with the find plan has exactly the answers of
      the find. */
  lemma AggregateIsFind(c: Coll, f: Document, s: Document, k: Value, n: Value, p: Document, out: seq<Document>)
    requires ToInt(k) >= 0 && ToInt(n) > 0
    ensures MemFind(c, FindRequest(f, FindOptions(p, s, ToInt(k), ToInt(n))), out) <==>
            exists docs ::
              && MemFind(c, FindRequest(map[], NO_OPTIONS), docs)
              && PipelineRuns(docs, FindPlan(f, s, k, n, p), Docs(out))
  {
    hide PipelineRuns, FindPlan, ToInt;
    var req := FindRequest(f, FindOptions(p, s, ToInt(k), ToInt(n)));
    if MemFind(c, req, out) {
      var order, field :|
        && Enumerates(order, c.Keys)
        && FirstEntry(req.options.sort, field)
        && out == ApplyFindOptions(Filter(Passes(Map(req.filter)), DocsAt(c, order)), req.options, field);
      WholeScan(c, order);
      assert out == Found(DocsAt(c, order), f, s, k, n, p, field);
      PlanIsFind(DocsAt(c, order), f, s, k, n, p, Docs(out));
    }
    if docs :| MemFind(c, FindRequest(map[], NO_OPTIONS), docs) && PipelineRuns(docs, FindPlan(f, s, k, n, p), Docs(out)) {
      var order := WholeOrder(c, docs);
      PlanIsFind(docs, f, s, k, n, p, Docs(out));
      var field :| FirstEntry(s, field) && Docs(out) == Docs(Found(docs, f, s, k, n, p, field));
      assert out == ApplyFindOptions(Filter(Passes(Map(req.filter)), DocsAt(c, order)), req.options, field);
    }
  }

  lemma WholeScan(c: Coll, order: seq<string>)
    requires Enumerates(order, c.Keys)
    ensures MemFind(c, FindRequest(map[], NO_OPTIONS), DocsAt(c, order))
  {
    var req, docs := FindRequest(map[], NO_OPTIONS), DocsAt(c, order);
    FilterAll(Passes(Map(map[])), docs);
    assert FirstEntry(req.options.sort, "");
    assert docs == ApplyFindOptions(Filter(Passes(Map(req.filter)), docs), req.options, "");
  }

  lemma WholeOrder(c: Coll, docs: seq<Document>) returns (order: seq<string>)
    requires MemFind(c, FindRequest(map[], NO_OPTIONS), docs)
    ensures Enumerates(order, c.Keys) && docs == DocsAt(c, order)
  {
    var req := FindRequest(map[], NO_OPTIONS);
    var field;
    order, field :|
      && Enumerates(order, c.Keys)
      && FirstEntry(req.options.sort, field)
      && docs == ApplyFindOptions(Filter(Passes(Map(req.filter)), DocsAt(c, order)), req.options, field);
    FilterAll(Passes(Map(map[])), DocsAt(c, order));
  }
}
