/** `$unwind`, and grouping by `_id` with `$push` as its inverse
    (internal/mql/mql.go:713-734 and 464-526). */
module Unwinding {
  import opened Bson
  import opened Enumerations
  import opened Groups
  import opened GroupLaws
  import opened Paths
  import opened StableSort

  function TrimDollar(s: string): string {
    if |s| > 0 && s[0] == '$' then s[1..] else s
  }

  function UnwindPath(raw: Value): string {
    match raw
    case Str(s) => TrimDollar(s)
    case Map(m) => TrimDollar(Sprint(Lookup(m, "path")))
    case _ => ""
  }

  /** One copy of the document per array element; none when there is no array. */
  function UnwindOne(doc: Document, path: string): seq<Document> {
    var items := AsArray(Lookup(doc, path));
    seq(|items|, i requires 0 <= i < |items| => doc[path := items[i]])
  }

  function UnwindAll(docs: seq<Document>, path: string): seq<Document> {
    if docs == [] then [] else UnwindAll(docs[..|docs| - 1], path) + UnwindOne(docs[|docs| - 1], path)
  }

  function Unwind(docs: seq<Document>, raw: Value): seq<Document> {
    if UnwindPath(raw) == "" then docs else UnwindAll(docs, UnwindPath(raw))
  }

  method UnwindLoop(docs: seq<Document>, raw: Value) returns (res: seq<Document>)
    ensures res == Unwind(docs, raw)
  {
    var path := UnwindPath(raw);
    if path == "" {
      return docs;
    }
    res := [];
    for i := 0 to |docs|
      invariant res == UnwindAll(docs[..i], path)
    {
      var doc, items := docs[i], AsArray(Lookup(docs[i], path));
      ghost var before := res;
      for j := 0 to |items|
        invariant res == before + UnwindOne(doc, path)[..j]
      {
        res := res + [doc[path := items[j]]];
      }
      assert docs[..i + 1][..i] == docs[..i];
    }
    assert docs[..|docs|] == docs;
  }

  // ----- unwinding then grouping -----

  /** Groups by `_id` and collects one field: `{_id: "$_id", out: {$push: "$field"}}`. */
  function CollectSpec(field: string, out: string): Document {
    map["_id" := Str("$_id"), out := Map(map["$push" := Str("$" + field)])]
  }

  function IdKey(doc: Document): string {
    GroupKey(doc, Str("$_id"))
  }

  ghost predicate DistinctIds(docs: seq<Document>) {
    forall i, j :: 0 <= i < j < |docs| ==> IdKey(docs[i]) != IdKey(docs[j])
  }

  /** The documents with a non-empty array, each reduced to its id and that array. */
  function Arrays(docs: seq<Document>, field: string, out: string): seq<Document> {
    if docs == [] then []
    else
      var n := |docs| - 1;
      var rest := Arrays(docs[..n], field, out);
      if AsArray(Lookup(docs[n], field)) == [] then rest else rest + [Rebuilt(docs[n], field, out)]
  }

  function Rebuilt(doc: Document, field: string, out: string): Document {
    map["_id" := Lookup(doc, "_id"), out := Lookup(doc, field)]
  }

  lemma IdExpr(doc: Document)
    ensures EvalExpr(doc, Str("$_id")) == Lookup(doc, "_id")
  {
    assert "$_id"[1..] == "_id";
    PlainPath(doc, "_id");
  }

  lemma UnwoundDocument(doc: Document, field: string, i: nat)
    requires field != "" && field != "_id"
    requires i < |AsArray(Lookup(doc, field))|
    ensures var copy := UnwindOne(doc, field)[i];
            && IdKey(copy) == IdKey(doc)
            && EvalExpr(copy, Str("$_id")) == Lookup(doc, "_id")
            && EvalExpr(copy, Str("$" + field)) == AsArray(Lookup(doc, field))[i]
  {
    var copy := UnwindOne(doc, field)[i];
    IdExpr(doc);
    IdExpr(copy);
    assert ("$" + field)[1..] == field;
  }

  lemma {:induction false} MembersOfUnwound(doc: Document, field: string, key: string)
    requires field != "" && field != "_id"
    ensures Members(UnwindOne(doc, field), key, Str("$_id")) == if IdKey(doc) == key then UnwindOne(doc, field) else []
  {
    var copies := UnwindOne(doc, field);
    forall copy | copy in copies ensures IdKey(copy) == IdKey(doc) {
      var i :| 0 <= i < |copies| && copies[i] == copy;
      UnwoundDocument(doc, field, i);
    }
    if IdKey(doc) == key {
      FilterAll(InGroup(key, Str("$_id")), copies);
    } else {
      FilterNone(InGroup(key, Str("$_id")), copies);
    }
  }

  /** The group of a document's id holds exactly that document's copies. */
  lemma {:induction false} MembersOfUnwoundAll(docs: seq<Document>, field: string, i: nat)
    requires field != "" && field != "_id"
    requires DistinctIds(docs) && i < |docs|
    ensures Members(UnwindAll(docs, field), IdKey(docs[i]), Str("$_id")) == UnwindOne(docs[i], field)
    decreases |docs|
  {
    var n := |docs| - 1;
    var key := IdKey(docs[i]);
    assert UnwindAll(docs, field) == UnwindAll(docs[..n], field) + UnwindOne(docs[n], field);
    FilterAppend(InGroup(key, Str("$_id")), UnwindAll(docs[..n], field), UnwindOne(docs[n], field));
    MembersOfUnwound(docs[n], field, key);
    if i < n {
      MembersOfUnwoundAll(docs[..n], field, i);
      assert docs[..n][i] == docs[i] && IdKey(docs[n]) != key;
    } else {
      NoMembersOfUnwound(docs[..n], field, key);
    }
  }

  lemma {:induction false} NoMembersOfUnwound(docs: seq<Document>, field: string, key: string)
    requires field != "" && field != "_id"
    requires forall i :: 0 <= i < |docs| ==> IdKey(docs[i]) != key
    ensures Members(UnwindAll(docs, field), key, Str("$_id")) == []
    decreases |docs|
  {
    if docs != [] {
      var n := |docs| - 1;
      NoMembersOfUnwound(docs[..n], field, key);
      MembersOfUnwound(docs[n], field, key);
      FilterAppend(InGroup(key, Str("$_id")), UnwindAll(docs[..n], field), UnwindOne(docs[n], field));
    }
  }

  lemma CollectOutput(field: string, out: string)
    requires out != "_id"
    ensures OutputFields(CollectSpec(field, out)) == {out} && OneOperator(CollectSpec(field, out), out)
    ensures OutputOf(CollectSpec(field, out), out) == Output(Push, Str("$" + field))
    ensures Lookup(CollectSpec(field, out), "_id") == Str("$_id")
  {
    var spec := CollectSpec(field, out);
    assert AsMap(spec[out]) == map["$push" := Str("$" + field)];
    assert "$push" in AsMap(spec[out]);
    assert AccumulatorNamed("$push") == Push;
  }

  /** Collecting the copies of one document gives its array back, in order. */
  lemma CollectedIsRebuilt(doc: Document, field: string, out: string, result: Document)
    requires field != "" && field != "_id" && out != "_id"
    requires AsArray(Lookup(doc, field)) != []
    requires IsGroupResult(UnwindOne(doc, field), CollectSpec(field, out), result)
    ensures result == Rebuilt(doc, field, out)
  {
    hide FieldResult, FieldValue, OutputOf;
    CollectOutput(field, out);
    CollectedArray(doc, field);
    UnwoundDocument(doc, field, 0);
    ResultShowsOutcome(UnwindOne(doc, field), CollectSpec(field, out), out, result);
    assert result.Keys == {"_id", out};
  }

  lemma CollectedArray(doc: Document, field: string)
    requires field != "" && field != "_id"
    requires AsArray(Lookup(doc, field)) != []
    ensures FieldValue(Output(Push, Str("$" + field)), UnwindOne(doc, field)) == Lookup(doc, field)
  {
    var copies, items := UnwindOne(doc, field), AsArray(Lookup(doc, field));
    var values := Values(copies, Str("$" + field));
    assert |values| == |items|;
    forall i | 0 <= i < |items| ensures values[i] == items[i] {
      UnwoundDocument(doc, field, i);
    }
    assert values == items;
    PushListsValues(items);
  }

  /** The group keys that survive unwinding, in input order. */
  function ArrayKeys(docs: seq<Document>, field: string): seq<string> {
    if docs == [] then []
    else
      var n := |docs| - 1;
      var rest := ArrayKeys(docs[..n], field);
      if AsArray(Lookup(docs[n], field)) == [] then rest else rest + [IdKey(docs[n])]
  }

  /** The document with the given id, rebuilt. */
  function RebuiltFor(docs: seq<Document>, field: string, out: string, key: string): Document {
    if docs == [] then map[]
    else
      var n := |docs| - 1;
      if IdKey(docs[n]) == key then Rebuilt(docs[n], field, out) else RebuiltFor(docs[..n], field, out, key)
  }

  lemma {:induction false} RebuiltAt(docs: seq<Document>, i: nat, field: string, out: string)
    requires DistinctIds(docs) && i < |docs|
    ensures RebuiltFor(docs, field, out, IdKey(docs[i])) == Rebuilt(docs[i], field, out)
    decreases |docs|
  {
    var n := |docs| - 1;
    if i < n {
      RebuiltAt(docs[..n], i, field, out);
    }
  }

  function AllRebuilt(docs: seq<Document>, field: string, out: string, order: seq<string>): seq<Document> {
    MapSeq(key => RebuiltFor(docs, field, out, key), order)
  }

  lemma {:induction false} ArraysByKey(docs: seq<Document>, n: nat, field: string, out: string)
    requires DistinctIds(docs) && n <= |docs|
    ensures Arrays(docs[..n], field, out) == AllRebuilt(docs, field, out, ArrayKeys(docs[..n], field))
  {
    if n > 0 {
      var doc, keys := docs[n - 1], ArrayKeys(docs[..n - 1], field);
      ArraysByKey(docs, n - 1, field, out);
      assert docs[..n][..n - 1] == docs[..n - 1] && docs[..n][n - 1] == doc;
      if AsArray(Lookup(doc, field)) != [] {
        RebuiltAt(docs, n - 1, field, out);
        OneMoreRebuilt(docs, field, out, keys, IdKey(doc));
      }
    }
  }

  lemma OneMoreRebuilt(docs: seq<Document>, field: string, out: string, keys: seq<string>, key: string)
    ensures AllRebuilt(docs, field, out, keys + [key]) ==
            AllRebuilt(docs, field, out, keys) + [RebuiltFor(docs, field, out, key)]
  {
  }

  /** The surviving keys are distinct, and they are the groups of the unwound documents. */
  lemma {:induction false} ArrayKeysAreGroups(docs: seq<Document>, field: string)
    requires field != "" && field != "_id" && DistinctIds(docs)
    ensures Enumerates(ArrayKeys(docs, field), GroupKeys(UnwindAll(docs, field), Str("$_id")))
    decreases |docs|
  {
    var id := Str("$_id");
    if docs != [] {
      var n := |docs| - 1;
      var doc, before := docs[n], UnwindAll(docs[..n], field);
      ArrayKeysAreGroups(docs[..n], field);
      KeyHasMembers(before, IdKey(doc), id);
      NoMembersOfUnwound(docs[..n], field, IdKey(doc));
      forall k ensures k in GroupKeys(UnwindAll(docs, field), id) <==>
                       k in GroupKeys(before, id) || (k == IdKey(doc) && UnwindOne(doc, field) != [])
      {
        UnwoundKeys(before, doc, field, k);
      }
      assert |UnwindOne(doc, field)| == |AsArray(Lookup(doc, field))|;
    }
  }

  lemma UnwoundKeys(before: seq<Document>, doc: Document, field: string, k: string)
    requires field != "" && field != "_id"
    ensures k in GroupKeys(before + UnwindOne(doc, field), Str("$_id")) <==>
            k in GroupKeys(before, Str("$_id")) || (k == IdKey(doc) && UnwindOne(doc, field) != [])
  {
    var id := Str("$_id");
    KeyHasMembers(before + UnwindOne(doc, field), k, id);
    KeyHasMembers(before, k, id);
    FilterAppend(InGroup(k, id), before, UnwindOne(doc, field));
    MembersOfUnwound(doc, field, k);
  }

  /** The group of a key is the copies of one document. */
  lemma {:induction false} KeyOfDocument(docs: seq<Document>, field: string, key: string) returns (i: nat)
    requires key in ArrayKeys(docs, field)
    ensures i < |docs| && IdKey(docs[i]) == key && AsArray(Lookup(docs[i], field)) != []
    decreases |docs|
  {
    var n := |docs| - 1;
    if AsArray(Lookup(docs[n], field)) != [] && IdKey(docs[n]) == key {
      i := n;
    } else {
      i := KeyOfDocument(docs[..n], field, key);
    }
  }

  lemma GroupIsRebuilt(docs: seq<Document>, field: string, out: string, key: string, result: Document)
    requires field != "" && field != "_id" && out != "_id" && DistinctIds(docs)
    requires key in ArrayKeys(docs, field)
    requires Members(UnwindAll(docs, field), key, Str("$_id")) != []
    requires IsGroupResult(Members(UnwindAll(docs, field), key, Str("$_id")), CollectSpec(field, out), result)
    ensures result == RebuiltFor(docs, field, out, key)
  {
    hide IsGroupResult;
    var i := KeyOfDocument(docs, field, key);
    MembersOfUnwoundAll(docs, field, i);
    CollectedIsRebuilt(docs[i], field, out, result);
    RebuiltAt(docs, i, field, out);
  }

  lemma ResultsInOrder(docs: seq<Document>, field: string, out: string, order: seq<string>, res: seq<Document>)
    requires field != "" && field != "_id" && out != "_id" && DistinctIds(docs)
    requires GroupsInOrder(UnwindAll(docs, field), CollectSpec(field, out), order, res)
    ensures res == AllRebuilt(docs, field, out, order)
  {
    hide IsGroupResult;
    CollectOutput(field, out);
    ArrayKeysAreGroups(docs, field);
    forall i | 0 <= i < |order| ensures res[i] == RebuiltFor(docs, field, out, order[i]) {
      assert order[i] in order;
      GroupIsRebuilt(docs, field, out, order[i], res[i]);
    }
  }

  /** Unwinding a field and then collecting it by `_id` rebuilds every non-empty array,
      element for element and in order, and produces nothing else.  `field` may be any
      non-empty name but `_id`; the documents need pairwise distinct `_id` group keys. */
  lemma UnwindThenGroup(docs: seq<Document>, field: string, out: string, res: seq<Document>)
    requires field != "" && field != "_id" && out != "_id"
    requires DistinctIds(docs)
    requires GroupsTo(Unwind(docs, Str("$" + field)), CollectSpec(field, out), res)
    ensures multiset(res) == multiset(Arrays(docs, field, out))
  {
    assert ("$" + field)[1..] == field;
    var unwound, spec := UnwindAll(docs, field), CollectSpec(field, out);
    CollectOutput(field, out);
    var order :| GroupsInOrder(unwound, spec, order, res);
    ResultsInOrder(docs, field, out, order, res);
    ArrayKeysAreGroups(docs, field);
    EnumerationsPermute(order, ArrayKeys(docs, field), GroupKeys(unwound, Str("$_id")));
    MapPermutes(key => RebuiltFor(docs, field, out, key), order, ArrayKeys(docs, field));
    ArraysByKey(docs, |docs|, field, out);
    assert docs[..|docs|] == docs;
  }
}
