/** Which way a sort goes, stated of the answers and without the comparators
    (internal/mql/mql.go:254-283, 657-674). */
module SortLaws {
  import opened Bson
  import opened Collections
  import opened Enumerations
  import opened Matching
  import opened Ordering
  import Paging
  import opened Paths
  import opened Pipelines
  import opened Queries
  import opened Refinement
  import opened StableSort
  import opened Updates

  /** The values are numbers and go up, or down. */
  ghost predicate NumbersInOrder(keys: seq<Value>, desc: bool) {
    forall i, j :: 0 <= i < j < |keys| ==>
      && IsNumber(keys[i]) && IsNumber(keys[j])
      && if desc then ToFloat(keys[i]) >= ToFloat(keys[j]) else ToFloat(keys[i]) <= ToFloat(keys[j])
  }

  /** The values are strings and go up, or down. */
  ghost predicate StringsInOrder(keys: seq<Value>, desc: bool) {
    forall i, j :: 0 <= i < j < |keys| ==>
      && keys[i].Str? && keys[j].Str?
      && if desc then !StrLess(keys[i].s, keys[j].s) else !StrLess(keys[j].s, keys[i].s)
  }

  ghost predicate AllStrings(values: seq<Value>) {
    forall v :: v in values ==> v.Str?
  }

  ghost predicate AllNumbers(values: seq<Value>) {
    forall v :: v in values ==> IsNumber(v)
  }

  /** The values of a path in each of the documents. */
  function Keys(docs: seq<Document>, field: string): seq<Value> {
    seq(|docs|, i requires 0 <= i < |docs| => ValueByPath(docs[i], field).value)
  }

  // ----- one comparison -----

  lemma NumbersGo(x: Value, y: Value, desc: bool)
    requires IsNumber(x) && IsNumber(y) && !ValueLess(desc)(y, x)
    ensures if desc then ToFloat(x) >= ToFloat(y) else ToFloat(x) <= ToFloat(y)
  {
  }

  lemma StringsGo(x: Value, y: Value, desc: bool)
    requires x.Str? && y.Str? && !ValueLess(desc)(y, x)
    ensures if desc then !StrLess(x.s, y.s) else !StrLess(y.s, x.s)
  {
    StrLessTrichotomy(x.s, y.s);
  }

  // ----- documents -----

  lemma SortedDocs(docs: seq<Document>, field: string, desc: bool, numeric: bool)
    requires KeysInClass(docs, field, numeric)
    ensures Ordered(DocLess(field, desc), Sort(DocLess(field, desc), docs))
    ensures multiset(Sort(DocLess(field, desc), docs)) == multiset(docs)
  {
    DocLessIsWeakOrder(field, desc, numeric);
    SortIsStable(DocLess(field, desc), KeyInClass(field, numeric), docs);
    SortPermutes(DocLess(field, desc), [], docs);
  }

  lemma OrderedNumbers(docs: seq<Document>, field: string, desc: bool)
    requires Ordered(DocLess(field, desc), docs) && AllNumbers(Keys(docs, field))
    ensures NumbersInOrder(Keys(docs, field), desc)
  {
    var keys := Keys(docs, field);
    forall i, j | 0 <= i < j < |keys|
      ensures IsNumber(keys[i]) && IsNumber(keys[j])
      ensures if desc then ToFloat(keys[i]) >= ToFloat(keys[j]) else ToFloat(keys[i]) <= ToFloat(keys[j])
    {
      assert keys[i] in keys && keys[j] in keys;
      assert !DocLess(field, desc)(docs[j], docs[i]);
      assert SortKey(docs[i], field) == keys[i] && SortKey(docs[j], field) == keys[j];
      NumbersGo(keys[i], keys[j], desc);
    }
  }

  lemma OrderedStrings(docs: seq<Document>, field: string, desc: bool)
    requires Ordered(DocLess(field, desc), docs) && AllStrings(Keys(docs, field))
    ensures StringsInOrder(Keys(docs, field), desc)
  {
    var keys := Keys(docs, field);
    forall i, j | 0 <= i < j < |keys|
      ensures keys[i].Str? && keys[j].Str?
      ensures if desc then !StrLess(keys[i].s, keys[j].s) else !StrLess(keys[j].s, keys[i].s)
    {
      assert keys[i] in keys && keys[j] in keys;
      assert !DocLess(field, desc)(docs[j], docs[i]);
      assert SortKey(docs[i], field) == keys[i] && SortKey(docs[j], field) == keys[j];
      StringsGo(keys[i], keys[j], desc);
    }
  }

  lemma PartOrdered(less: Less<Document>, docs: seq<Document>, skip: int, limit: int)
    requires Ordered(less, docs)
    ensures Ordered(less, Page(docs, skip, limit))
    ensures forall doc :: doc in Page(docs, skip, limit) ==> doc in docs
  {
  }

  /** What a sort by one field does to a page of documents: which way it goes, and which
      documents there are. */
  lemma SortByOne(docs: seq<Document>, field: string, d: Value, first: string, skip: int, limit: int)
    requires field != "$natural" && FirstEntry(map[field := d], first)
    requires AllNumbers(Keys(docs, field)) || AllStrings(Keys(docs, field))
    ensures var out := Page(SortBy(docs, map[field := d], first), skip, limit);
            && (AllNumbers(Keys(docs, field)) ==> NumbersInOrder(Keys(out, field), ToFloat(d) < 0.0))
            && (AllStrings(Keys(docs, field)) ==> StringsInOrder(Keys(out, field), ToFloat(d) < 0.0))
            && (skip <= 0 && limit <= 0 ==> multiset(out) == multiset(docs))
  {
    assert first == field by { assert field in map[field := d]; }
    var desc, numeric := ToFloat(d) < 0.0, AllNumbers(Keys(docs, field));
    KeysOneClass(docs, field);
    SortedDocs(docs, field, desc, numeric);
    var sorted := Sort(DocLess(field, desc), docs);
    assert SortBy(docs, map[field := d], first) == sorted;
    PartOrdered(DocLess(field, desc), sorted, skip, limit);
    SameKeys(docs, sorted, Page(sorted, skip, limit), field);
    if numeric {
      OrderedNumbers(Page(sorted, skip, limit), field, desc);
    }
    if AllStrings(Keys(docs, field)) {
      OrderedStrings(Page(sorted, skip, limit), field, desc);
    }
  }

  lemma KeysOneClass(docs: seq<Document>, field: string)
    requires AllNumbers(Keys(docs, field)) || AllStrings(Keys(docs, field))
    ensures KeysInClass(docs, field, AllNumbers(Keys(docs, field)))
  {
    var numeric := AllNumbers(Keys(docs, field));
    forall doc | doc in docs ensures KeyInClass(field, numeric)(doc) {
      var i :| 0 <= i < |docs| && docs[i] == doc;
      assert Keys(docs, field)[i] == SortKey(doc, field) && Keys(docs, field)[i] in Keys(docs, field);
      if !numeric {
        assert SortKey(doc, field).Str?;
      }
    }
  }

  lemma SameKeys(docs: seq<Document>, sorted: seq<Document>, out: seq<Document>, field: string)
    requires multiset(sorted) == multiset(docs) && forall doc :: doc in out ==> doc in sorted
    ensures forall v :: v in Keys(out, field) ==> v in Keys(docs, field)
  {
    forall v | v in Keys(out, field) ensures v in Keys(docs, field) {
      var i :| 0 <= i < |out| && Keys(out, field)[i] == v;
      assert out[i] in out && out[i] in multiset(sorted) && out[i] in docs;
      var j :| 0 <= j < |docs| && docs[j] == out[i];
      assert Keys(docs, field)[j] == v;
    }
  }

  // ----- finds -----

  /** The values of a path in the matching documents. */
  ghost predicate MatchesHold(c: Coll, filter: Document, field: string, numeric: bool) {
    forall k :: k in MatchSet(c, filter) ==>
      var v := ValueByPath(c[k], field).value;
      if numeric then IsNumber(v) else v.Str?
  }

  function SortedRequest(filter: Document, field: string, d: Value, skip: int, limit: int): FindRequest {
    FindRequest(filter, FindOptions(map[], map[field := d], skip, limit))
  }

  /** A find sorted by a field that holds numbers in every match, or strings in every
      match, answers them upwards, or for a negative direction downwards; without skip
      and limit it answers exactly the matches. */
  lemma SortedFindGoes(
      c: Coll, filter: Document, field: string, d: Value, skip: int, limit: int, numeric: bool, out: seq<Document>)
    requires field != "$natural" && MatchesHold(c, filter, field, numeric)
    requires MemFind(c, SortedRequest(filter, field, d, skip, limit), out)
    ensures numeric ==> NumbersInOrder(Keys(out, field), ToFloat(d) < 0.0)
    ensures !numeric ==> StringsInOrder(Keys(out, field), ToFloat(d) < 0.0)
    ensures skip <= 0 && limit <= 0 ==> multiset(out) == multiset(DocsAt(c, ScanOrder(MatchSet(c, filter))))
  {
    var req := SortedRequest(filter, field, d, skip, limit);
    var order, first :|
      && Enumerates(order, c.Keys)
      && FirstEntry(req.options.sort, first)
      && out == ApplyFindOptions(Filter(Passes(Map(req.filter)), DocsAt(c, order)), req.options, first);
    var keys := MatchingKeys(c, order, filter);
    MatchingKeysMatch(c, order, filter);
    MatchingKeysFilter(c, order, filter);
    hide ScanOrder, Sort, Keys;
    KeysHold(c, filter, field, numeric, keys);
    SortByOne(DocsAt(c, keys), field, d, first, skip, limit);
    SameDocuments(c, keys, filter);
  }

  lemma KeysHold(c: Coll, filter: Document, field: string, numeric: bool, keys: seq<string>)
    requires MatchesHold(c, filter, field, numeric) && forall k :: k in keys ==> k in MatchSet(c, filter)
    ensures if numeric then AllNumbers(Keys(DocsAt(c, keys), field)) else AllStrings(Keys(DocsAt(c, keys), field))
  {
    var docs := DocsAt(c, keys);
    forall v | v in Keys(docs, field) ensures if numeric then IsNumber(v) else v.Str? {
      var i :| 0 <= i < |docs| && Keys(docs, field)[i] == v;
      assert keys[i] in keys;
    }
  }

  lemma SameDocuments(c: Coll, keys: seq<string>, filter: Document)
    requires Enumerates(keys, MatchSet(c, filter))
    ensures multiset(DocsAt(c, keys)) == multiset(DocsAt(c, ScanOrder(MatchSet(c, filter))))
  {
    hide ScanOrder, DocsAt;
    var other := ScanOrder(MatchSet(c, filter));
    EnumerationsPermute(keys, other, MatchSet(c, filter));
    MapPermutes(Paging.DocAt(c), keys, other);
    Paging.AsMapSeq(c, keys);
    Paging.AsMapSeq(c, other);
  }

  /** A find without options answers exactly the matches, in some order. */
  lemma PlainFindAnswersMatches(c: Coll, filter: Document, out: seq<Document>)
    requires MemFind(c, FindRequest(filter, NO_OPTIONS), out)
    ensures multiset(out) == multiset(DocsAt(c, ScanOrder(MatchSet(c, filter))))
    ensures forall doc :: doc in out <==> exists k :: k in c && c[k] == doc && Matches(doc, Map(filter))
  {
    var req := FindRequest(filter, NO_OPTIONS);
    var order, first :|
      && Enumerates(order, c.Keys)
      && FirstEntry(req.options.sort, first)
      && out == ApplyFindOptions(Filter(Passes(Map(req.filter)), DocsAt(c, order)), req.options, first);
    var keys := MatchingKeys(c, order, filter);
    MatchingKeysMatch(c, order, filter);
    MatchingKeysFilter(c, order, filter);
    assert out == DocsAt(c, keys);
    SameDocuments(c, keys, filter);
    forall doc ensures doc in out <==> exists k :: k in c && c[k] == doc && Matches(doc, Map(filter)) {
      InDocsAt(c, keys, doc);
    }
  }

  lemma InDocsAt(c: Coll, keys: seq<string>, doc: Document)
    requires forall k :: k in keys ==> k in c
    ensures doc in DocsAt(c, keys) <==> exists k :: k in keys && c[k] == doc
  {
    var docs := DocsAt(c, keys);
    if doc in docs {
      var i :| 0 <= i < |docs| && docs[i] == doc;
      assert keys[i] in keys;
    }
    if k :| k in keys && c[k] == doc {
      var i :| 0 <= i < |keys| && keys[i] == k;
      assert docs[i] == doc;
    }
  }

  /** The `$sort` stage goes the same way and keeps every document. */
  lemma SortStageGoes(docs: seq<Document>, field: string, d: Value, out: seq<Document>)
    requires field != "$natural" && EntryRuns(docs, StageNamed("$sort"), Map(map[field := d]), Docs(out))
    requires AllNumbers(Keys(docs, field)) || AllStrings(Keys(docs, field))
    ensures AllNumbers(Keys(docs, field)) ==> NumbersInOrder(Keys(out, field), ToFloat(d) < 0.0)
    ensures AllStrings(Keys(docs, field)) ==> StringsInOrder(Keys(out, field), ToFloat(d) < 0.0)
    ensures multiset(out) == multiset(docs)
  {
    assert StageNamed("$sort") == SortStage;
    var first :| FirstEntry(map[field := d], first) && out == SortBy(docs, map[field := d], first);
    SortByOne(docs, field, d, first, 0, 0);
  }

  /** `$natural` leaves the order alone. */
  lemma NaturalKeepsOrder(docs: seq<Document>, d: Value, out: seq<Document>)
    requires EntryRuns(docs, StageNamed("$sort"), Map(map["$natural" := d]), Docs(out))
    ensures out == docs
  {
    assert StageNamed("$sort") == SortStage;
  }

  // ----- pushed arrays -----

  /** `$push` with `$each` and `$sort` leaves all items, old and new, in order. */
  lemma SortedPushGoes(doc: Document, field: string, batch: seq<Value>, d: Value, next: Document)
    requires CanBecome(doc, OneField("$push", field, Map(map["$each" := Array(batch), "$sort" := d])), next)
    requires var all := AsArray(Lookup(doc, field)) + batch; AllNumbers(all) || AllStrings(all)
    ensures field in next && next[field].Array?
    ensures var all := AsArray(Lookup(doc, field)) + batch;
            && (AllNumbers(all) ==> NumbersInOrder(next[field].a, ToFloat(d) < 0.0))
            && (AllStrings(all) ==> StringsInOrder(next[field].a, ToFloat(d) < 0.0))
            && multiset(next[field].a) == multiset(all)
  {
    hide CanBecome, Outcome;
    var spec: Document := map["$each" := Array(batch), "$sort" := d];
    assert Updates.OperatorNamed("$push") == Push;
    OnlyStepOf(doc, "$push", field, Map(spec), next);
    var all, less := AsArray(Lookup(doc, field)) + batch, ValueLess(ToFloat(d) < 0.0);
    assert spec["$each"] == Array(batch) && spec["$sort"] == d && "$slice" !in spec;
    assert next[field] == Array(Sort(less, all));
    SortedValues(all, ToFloat(d) < 0.0);
  }

  lemma OnlyStepOf(doc: Document, name: string, field: string, arg: Value, next: Document)
    requires |name| > 0 && name[0] == '$' && Updates.OperatorNamed(name) != Updates.Unsupported
    requires CanBecome(doc, OneField(name, field, arg), next)
    ensures exists now :: next == ApplyStep(doc, Step(name, Updates.OperatorNamed(name), field, arg), now)
  {
    var now :| Outcome(doc, OneField(name, field, arg), now, next);
    OneFieldOutcome(doc, name, field, arg, now, next);
  }

  lemma SortedValues(all: seq<Value>, desc: bool)
    requires AllNumbers(all) || AllStrings(all)
    ensures var sorted := Sort(ValueLess(desc), all);
            && (AllNumbers(all) ==> NumbersInOrder(sorted, desc))
            && (AllStrings(all) ==> StringsInOrder(sorted, desc))
            && multiset(sorted) == multiset(all)
  {
    var less, sorted, numeric := ValueLess(desc), Sort(ValueLess(desc), all), AllNumbers(all);
    ValueLessIsWeakOrder(desc, numeric);
    SortIsStable(less, InClass(numeric), all);
    SortPermutes(less, [], all);
    forall v | v in sorted ensures v in all {
      assert v in multiset(sorted);
    }
    forall i, j | 0 <= i < j < |sorted|
      ensures numeric ==> IsNumber(sorted[i]) && IsNumber(sorted[j])
      ensures numeric ==> if desc then ToFloat(sorted[i]) >= ToFloat(sorted[j]) else ToFloat(sorted[i]) <= ToFloat(sorted[j])
      ensures AllStrings(all) ==> sorted[i].Str? && sorted[j].Str?
      ensures AllStrings(all) ==>
                if desc then !StrLess(sorted[i].s, sorted[j].s) else !StrLess(sorted[j].s, sorted[i].s)
    {
      assert sorted[i] in sorted && sorted[j] in sorted && !less(sorted[j], sorted[i]);
      if numeric {
        NumbersGo(sorted[i], sorted[j], desc);
      }
      if AllStrings(all) {
        StringsGo(sorted[i], sorted[j], desc);
      }
    }
  }
}
