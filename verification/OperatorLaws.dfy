/** What each update operator leaves in its field, and what a replacement leaves
    (internal/mql/mql.go:178-328). */
module OperatorLaws {
  import opened Bson
  import opened StableSort
  import opened Updates
  import opened UpdateLaws

  /** `next` is what `{name: {field: arg}}` makes of the document at the time `now`. */
  ghost predicate Leaves(doc: Document, name: string, field: string, arg: Value, now: int, next: Document) {
    Outcome(doc, OneField(name, field, arg), now, next)
  }

  /** `$set` stores its operand, `$unset` removes the field, `$currentDate` stores the time
      of the update; no other field changes. */
  lemma StoringOperators(
      doc: Document, field: string, v: Value, now: int, set_: Document, unset: Document, dated: Document)
    requires Leaves(doc, "$set", field, v, now, set_)
    requires Leaves(doc, "$unset", field, v, now, unset)
    requires Leaves(doc, "$currentDate", field, v, now, dated)
    ensures set_ == doc[field := v]
    ensures unset == doc - {field}
    ensures dated == doc[field := DateTime(now)]
  {
    hide Outcome, OneField;
    Applied(doc, "$set", field, v, now, set_);
    Applied(doc, "$unset", field, v, now, unset);
    Applied(doc, "$currentDate", field, v, now, dated);
    assert OperatorNamed("$set") == Set && OperatorNamed("$unset") == Unset && OperatorNamed("$currentDate") == CurrentDate;
  }

  lemma MulOnce(doc: Document, field: string, a: Value, now: int, next: Document)
    requires Leaves(doc, "$mul", field, a, now, next)
    ensures next == doc[field := Double(Product(ToFloat(Lookup(doc, field)), ToFloat(a)))]
  {
    hide Outcome, OneField;
    Applied(doc, "$mul", field, a, now, next);
    assert OperatorNamed("$mul") == Mul;
  }

  lemma ByZeroAndOne(x: real, y: real)
    ensures x == 0.0 ==> Product(x, y) == 0.0
    ensures y == 1.0 ==> Product(x, y) == x
  {
  }

  /** `$mul` by `y` and then by `z` multiplies `x` by both; a field that holds no number
      counts as zero. */
  lemma MulMultiplies(
      doc: Document, field: string, a: Value, b: Value, now: int, mid: Document, next: Document,
      x: real, y: real, z: real)
    requires x == ToFloat(Lookup(doc, field)) && y == ToFloat(a) && z == ToFloat(b)
    requires Leaves(doc, "$mul", field, a, now, mid)
    requires Leaves(mid, "$mul", field, b, now, next)
    ensures mid == doc[field := Double(x * y)] && next == doc[field := Double(x * y * z)]
    ensures y == 1.0 && IsNumber(Lookup(doc, field)) ==> Equal(mid[field], doc[field])
    ensures !IsNumber(Lookup(doc, field)) ==> mid == doc[field := Double(0.0)]
  {
    hide Leaves, Product;
    MulOnce(doc, field, a, now, mid);
    MulOnce(mid, field, b, now, next);
    assert ToFloat(mid[field]) == Product(x, y);
    assert !IsNumber(Lookup(doc, field)) ==> x == 0.0;
    ByZeroAndOne(x, y);
    Triple(x, y, z);
  }

  lemma Triple(x: real, y: real, z: real)
    ensures Product(x, y) == x * y && Product(Product(x, y), z) == x * y * z
  {
    var w := x * y;
    assert Product(w, z) == w * z;
  }

  /** On a missing field `$inc`, `$min` and `$max` store their operand. */
  lemma MissingFieldStores(
      doc: Document, field: string, v: Value, now: int, inc: Document, least: Document, greatest: Document)
    requires field !in doc
    requires Leaves(doc, "$inc", field, v, now, inc)
    requires Leaves(doc, "$min", field, v, now, least)
    requires Leaves(doc, "$max", field, v, now, greatest)
    ensures inc == least == greatest == doc[field := v]
  {
    hide Outcome, OneField;
    Applied(doc, "$inc", field, v, now, inc);
    Applied(doc, "$min", field, v, now, least);
    Applied(doc, "$max", field, v, now, greatest);
    assert OperatorNamed("$inc") == Inc && OperatorNamed("$min") == Min && OperatorNamed("$max") == Max;
  }

  /** On numbers `$min` and `$max` leave the smaller and the larger one. */
  lemma MinMaxOfNumbers(doc: Document, field: string, v: Value, now: int, least: Document, greatest: Document)
    requires field in doc && IsNumber(doc[field]) && IsNumber(v)
    requires Leaves(doc, "$min", field, v, now, least)
    requires Leaves(doc, "$max", field, v, now, greatest)
    ensures least == doc[field := if ToFloat(v) < ToFloat(doc[field]) then v else doc[field]]
    ensures greatest == doc[field := if ToFloat(v) > ToFloat(doc[field]) then v else doc[field]]
  {
    hide Outcome, OneField;
    Applied(doc, "$min", field, v, now, least);
    Applied(doc, "$max", field, v, now, greatest);
    assert OperatorNamed("$min") == Min && OperatorNamed("$max") == Max;
  }

  /** `$rename` moves the value, over whatever the new name held; without the field it
      does nothing. */
  lemma RenameMoves(doc: Document, a: string, b: string, now: int, next: Document)
    requires Leaves(doc, "$rename", a, Str(b), now, next)
    ensures a !in doc ==> next == doc
    ensures a in doc && a != b ==>
              && a !in next && b in next && next[b] == doc[a]
              && forall f :: f != a && f != b ==> Field(next, f) == Field(doc, f)
  {
    hide Outcome, OneField;
    Applied(doc, "$rename", a, Str(b), now, next);
    assert OperatorNamed("$rename") == Rename;
  }

  /** `$bit` combines the old value, nil when missing, with its operand. */
  lemma BitCombines(doc: Document, field: string, v: Value, now: int, next: Document)
    requires Leaves(doc, "$bit", field, v, now, next)
    ensures next == doc[field := BitResult(Lookup(doc, field), v)]
  {
    hide Outcome, OneField;
    Applied(doc, "$bit", field, v, now, next);
    assert OperatorNamed("$bit") == Bit;
  }

  // ----- array operators -----

  /** `$pop` removes the first item for a negative operand and the last one otherwise; of
      no items it removes none. */
  lemma PopRemoves(doc: Document, field: string, v: Value, now: int, next: Document)
    requires Leaves(doc, "$pop", field, v, now, next)
    ensures var items := AsArray(Lookup(doc, field));
            if items == [] then next == doc
            else next == doc[field := Array(if ToFloat(v) < 0.0 then items[1..] else items[..|items| - 1])]
  {
    hide Outcome, OneField;
    Applied(doc, "$pop", field, v, now, next);
    assert OperatorNamed("$pop") == Pop;
  }

  /** `$push` with `$each` appends every item, in order. */
  lemma PushEachAppends(doc: Document, field: string, batch: seq<Value>, now: int, next: Document)
    requires Leaves(doc, "$push", field, Map(map["$each" := Array(batch)]), now, next)
    ensures next == doc[field := Array(AsArray(Lookup(doc, field)) + batch)]
  {
    hide Outcome, OneField;
    var spec: Document := map["$each" := Array(batch)];
    Applied(doc, "$push", field, Map(spec), now, next);
    assert OperatorNamed("$push") == Push;
    assert "$each" in spec && "$sort" !in spec && "$slice" !in spec;
  }

  /** With `$slice` it keeps the first `n` items, or the last `-n`. */
  lemma PushSliceKeeps(doc: Document, field: string, batch: seq<Value>, n: int, now: int, next: Document)
    requires Leaves(doc, "$push", field, Map(map["$each" := Array(batch), "$slice" := Int32(n)]), now, next)
    ensures var all := AsArray(Lookup(doc, field)) + batch;
            next == doc[field := Array(
              if n >= 0 then (if n < |all| then all[..n] else all) else if -n < |all| then all[|all| + n..] else all)]
  {
    hide Outcome, OneField, PushInto, Slice;
    var items := AsArray(Lookup(doc, field));
    Applied(doc, "$push", field, Map(map["$each" := Array(batch), "$slice" := Int32(n)]), now, next);
    assert OperatorNamed("$push") == Push;
    SlicedPush(items, batch, n);
    SliceKeeps(items + batch, n);
  }

  lemma SlicedPush(items: seq<Value>, batch: seq<Value>, n: int)
    ensures PushInto(items, Map(map["$each" := Array(batch), "$slice" := Int32(n)])) == Slice(items + batch, n)
  {
    hide Slice;
    var spec: Document := map["$each" := Array(batch), "$slice" := Int32(n)];
    assert Lookup(spec, "$each") == Array(batch) && "$sort" !in spec && spec["$slice"] == Int32(n);
    TruncWhole(n);
    assert ToInt(Int32(n)) == n;
  }

  lemma SliceKeeps(all: seq<Value>, n: int)
    ensures Slice(all, n) ==
            if n >= 0 then (if n < |all| then all[..n] else all) else if -n < |all| then all[|all| + n..] else all
  {
  }

  lemma TruncWhole(n: int)
    ensures Trunc(n as real) == n
  {
    var x := n as real;
    if n < 0 {
      assert (-x).Floor == -n;
    } else {
      assert x.Floor == n;
    }
  }

  /** `$addToSet` appends the value unless an equal one is there. */
  lemma AddToSetAppends(doc: Document, field: string, v: Value, now: int, next: Document)
    requires Leaves(doc, "$addToSet", field, v, now, next)
    ensures var items := AsArray(Lookup(doc, field));
            next == doc[field := Array(if exists x :: x in items && Equal(x, v) then items else items + [v])]
  {
    hide Outcome, OneField;
    Applied(doc, "$addToSet", field, v, now, next);
    assert OperatorNamed("$addToSet") == AddToSet;
    var items := AsArray(Lookup(doc, field));
    if ArrayContains(items, v) {
      var i :| 0 <= i < |items| && Equal(items[i], v);
      assert items[i] in items;
    }
  }

  /** The indices, in increasing order, of the elements that are kept. */
  ghost predicate KeptAt<T>(s: seq<T>, kept: seq<T>, at: seq<nat>) {
    && |kept| == |at| && (forall i, j :: 0 <= i < j < |at| ==> at[i] < at[j])
    && forall i :: 0 <= i < |at| ==> at[i] < |s| && kept[i] == s[at[i]]
  }

  /** `at` are the indices of the elements that pass. */
  ghost predicate PassAt<T(!new)>(p: T -> bool, s: seq<T>, at: seq<nat>) {
    forall n: nat :: n in at <==> n < |s| && p(s[n])
  }

  /** Filtering keeps the elements that pass, each where it stood among them. */
  lemma {:induction false} FilterKeepsOrder<T(!new)>(p: T -> bool, s: seq<T>) returns (at: seq<nat>)
    ensures KeptAt(s, Filter(p, s), at) && PassAt(p, s, at)
    decreases |s|
  {
    hide KeptAt, PassAt;
    if s == [] {
      at := NothingKept(p, s);
    } else {
      var init, last := s[..|s| - 1], s[|s| - 1];
      at := FilterKeepsOrder(p, init);
      FilterAppend(p, init, [last]);
      assert init + [last] == s && [last][1..] == [];
      PassOne(p, init, last, at);
      assert Filter(p, s) == if p(last) then Filter(p, init) + [last] else Filter(p, init);
      KeepOne(p, init, Filter(p, init), last, at);
      if p(last) {
        at := at + [|init|];
      }
    }
  }

  lemma NothingKept<T(!new)>(p: T -> bool, s: seq<T>) returns (at: seq<nat>)
    requires s == []
    ensures KeptAt(s, Filter(p, s), at) && PassAt(p, s, at)
  {
    at := [];
  }

  lemma PassOne<T(!new)>(p: T -> bool, init: seq<T>, last: T, at: seq<nat>)
    requires PassAt(p, init, at)
    ensures PassAt(p, init + [last], if p(last) then at + [|init|] else at)
  {
    var s, more := init + [last], if p(last) then at + [|init|] else at;
    forall n: nat ensures n in more <==> n < |s| && p(s[n]) {
      assert n in more <==> n in at || (n == |init| && p(last));
      assert n < |init| ==> s[n] == init[n];
    }
  }

  lemma KeepOne<T(!new)>(p: T -> bool, init: seq<T>, kept: seq<T>, last: T, at: seq<nat>)
    requires KeptAt(init, kept, at)
    ensures KeptAt(init + [last], kept, at) && KeptAt(init + [last], kept + [last], at + [|init|])
  {
    assert forall i :: 0 <= i < |at| ==> (init + [last])[at[i]] == init[at[i]];
  }

  /** `$pull` keeps the items that do not equal the value, in their order. */
  lemma PullKeeps(doc: Document, field: string, v: Value, now: int, next: Document) returns (at: seq<nat>)
    requires Leaves(doc, "$pull", field, v, now, next)
    ensures next == doc[field := Lookup(next, field)] && Lookup(next, field).Array?
    ensures var items := AsArray(Lookup(doc, field));
            && KeptAt(items, Lookup(next, field).a, at)
            && forall n: nat :: n in at <==> n < |items| && !ValueEquals(items[n], v)
  {
    hide Outcome, OneField;
    Applied(doc, "$pull", field, v, now, next);
    assert OperatorNamed("$pull") == Pull;
    at := FilterKeepsOrder(Differs(v), AsArray(Lookup(doc, field)));
  }

  // ----- replacements -----

  /** A replacement leaves its own fields, and of the old document nothing but an `_id`
      that is not nil, when it brings none. */
  lemma ReplacementLeaves(doc: Document, u: Document, now: int, next: Document)
    requires !OperatorStyle(u) && u != map[] && Outcome(doc, u, now, next)
    ensures forall f :: f in u ==> f in next && next[f] == u[f]
    ensures forall f :: f in next && f !in u ==> f == "_id" && "_id" in doc && next["_id"] == doc["_id"]
    ensures "_id" !in u && "_id" in doc && doc["_id"] != Null ==> "_id" in next
    ensures "_id" !in u && Lookup(doc, "_id") == Null ==> "_id" !in next
  {
  }

  /** The empty update changes nothing. */
  lemma EmptyUpdate(doc: Document, now: int, next: Document)
    ensures Outcome(doc, map[], now, next) <==> next == doc
  {
  }

  /** An update is refused exactly when it has a key that starts with a dollar sign and
      one that names no operator. */
  lemma Refusal(u: Document)
    ensures !Succeeds(u) <==>
            && (exists k :: k in u && k != "" && k[0] == '$')
            && exists k :: k in u && k !in OPERATORS
  {
    forall k ensures OperatorNamed(k) == Unsupported <==> k !in OPERATORS {
      NamesOperator(k);
    }
  }

  const OPERATORS: set<string> :=
    {"$set", "$inc", "$mul", "$min", "$max", "$rename", "$unset", "$currentDate", "$addToSet", "$push", "$pull", "$pop",
     "$bit"}

  lemma NamesOperator(k: string)
    ensures OperatorNamed(k) == Unsupported <==> k !in OPERATORS
  {
  }
}
