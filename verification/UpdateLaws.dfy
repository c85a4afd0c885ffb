/** What the update operators promise, stated across successive updates of one document
    (internal/mql/mql.go:202-327). */
module UpdateLaws {
  import opened Bson
  import opened Enumerations
  import opened Ordering
  import opened StableSort
  import opened Updates

  /** The one outcome of `{name: {field: arg}}`. */
  lemma Applied(doc: Document, name: string, field: string, arg: Value, now: int, next: Document)
    requires Outcome(doc, OneField(name, field, arg), now, next)
    requires |name| > 0 && name[0] == '$' && OperatorNamed(name) != Unsupported
    ensures next == ApplyStep(doc, Step(name, OperatorNamed(name), field, arg), now)
  {
    OneFieldOutcome(doc, name, field, arg, now, next);
  }

  /** Two `$inc`s of a number add up, so an `$inc` is undone by its negative. */
  lemma IncsAddUp(doc: Document, field: string, a: Value, b: Value, now: int, mid: Document, next: Document)
    requires field in doc && IsNumber(doc[field])
    requires Outcome(doc, OneField("$inc", field, a), now, mid)
    requires Outcome(mid, OneField("$inc", field, b), now, next)
    ensures next == doc[field := Double(ToFloat(doc[field]) + ToFloat(a) + ToFloat(b))]
    ensures ToFloat(b) == -ToFloat(a) ==> Equal(next[field], doc[field])
  {
    hide Outcome, OneField;
    Applied(doc, "$inc", field, a, now, mid);
    Applied(mid, "$inc", field, b, now, next);
    assert OperatorNamed("$inc") == Inc;
  }

  /** The first `$inc` of anything but a number stores the operand as it is. */
  lemma FirstIncStores(doc: Document, field: string, a: Value, now: int, next: Document)
    requires !IsNumber(Lookup(doc, field))
    requires Outcome(doc, OneField("$inc", field, a), now, next)
    ensures next == doc[field := a]
  {
    hide Outcome, OneField;
    Applied(doc, "$inc", field, a, now, next);
    assert OperatorNamed("$inc") == Inc;
  }

  /** `$min` and `$max` leave a bound of the old value and the operand, and one of them. */
  lemma MinMaxBound(doc: Document, field: string, a: Value, now: int, least: Document, greatest: Document)
    requires field in doc
    requires Outcome(doc, OneField("$min", field, a), now, least)
    requires Outcome(doc, OneField("$max", field, a), now, greatest)
    ensures field in least && least[field] in [a, doc[field]]
    ensures Compare(least[field], a) <= 0 && Compare(least[field], doc[field]) <= 0
    ensures field in greatest && greatest[field] in [a, doc[field]]
    ensures Compare(greatest[field], a) >= 0 && Compare(greatest[field], doc[field]) >= 0
  {
    hide Outcome, OneField;
    Applied(doc, "$min", field, a, now, least);
    Applied(doc, "$max", field, a, now, greatest);
    assert OperatorNamed("$min") == Min && OperatorNamed("$max") == Max;
    CompareAgreesWithEqual(a, doc[field]);
    CompareAgreesWithEqual(a, a);
    CompareAgreesWithEqual(doc[field], doc[field]);
  }

  /** The items of an array field. */
  function Items(doc: Document, field: string): seq<Value> {
    AsArray(Lookup(doc, field))
  }

  /** An operator on an array field leaves the array it makes of the old items. */
  lemma ArrayOutcome(doc: Document, name: string, field: string, arg: Value, now: int, next: Document)
    requires name in {"$push", "$addToSet", "$pull"} || (name == "$pop" && Items(doc, field) != [])
    requires Outcome(doc, OneField(name, field, arg), now, next)
    ensures next == doc[field := Array(NewItems(name, Items(doc, field), arg))]
  {
    hide Outcome, OneField;
    Applied(doc, name, field, arg, now, next);
    assert OperatorNamed("$push") == Push && OperatorNamed("$addToSet") == AddToSet;
    assert OperatorNamed("$pull") == Pull && OperatorNamed("$pop") == Pop;
  }

  function NewItems(name: string, items: seq<Value>, arg: Value): seq<Value>
    requires name == "$pop" ==> items != []
  {
    if name == "$push" then PushInto(items, arg)
    else if name == "$addToSet" then if ArrayContains(items, arg) then items else items + [arg]
    else if name == "$pull" then Filter(Differs(arg), items)
    else if name == "$pop" then PopFrom(items, arg)
    else items
  }

  /** `$pop` of the last item undoes `$push` of anything but a non-empty document. */
  lemma PopUndoesPush(doc: Document, field: string, v: Value, now: int, mid: Document, next: Document)
    requires AsMap(v) == map[]
    requires Outcome(doc, OneField("$push", field, v), now, mid)
    requires Outcome(mid, OneField("$pop", field, Int32(1)), now, next)
    ensures Items(mid, field) == Items(doc, field) + [v]
    ensures next == doc[field := Array(Items(doc, field))]
  {
    hide Outcome, OneField;
    ArrayOutcome(doc, "$push", field, v, now, mid);
    ArrayOutcome(mid, "$pop", field, Int32(1), now, next);
    var items := Items(doc, field) + [v];
    assert items[..|items| - 1] == Items(doc, field);
  }

  /** A pushed document is read as modifiers: without any it adds nothing. */
  lemma PushedDocumentIsLost(doc: Document, field: string, v: Value, now: int, next: Document)
    requires AsMap(v) != map[] && AsMap(v).Keys !! {"$each", "$sort", "$slice"}
    requires Outcome(doc, OneField("$push", field, v), now, next)
    ensures next == doc[field := Array(Items(doc, field))]
  {
    hide Outcome, OneField;
    Applied(doc, "$push", field, v, now, next);
    assert OperatorNamed("$push") == Push;
    assert "$each" !in AsMap(v) && "$sort" !in AsMap(v) && "$slice" !in AsMap(v);
    assert Items(doc, field) + [] == Items(doc, field);
  }

  /** `$addToSet` keeps the items, ensures that the value is among them, keeps them free
      of equals, and changes nothing the second time. */
  lemma AddToSetAddsOnce(doc: Document, field: string, v: Value, now: int, mid: Document, next: Document)
    requires Outcome(doc, OneField("$addToSet", field, v), now, mid)
    requires Outcome(mid, OneField("$addToSet", field, v), now, next)
    ensures Items(doc, field) <= Items(mid, field) && ArrayContains(Items(mid, field), v)
    ensures NoEqualPair(Items(doc, field)) ==> NoEqualPair(Items(mid, field))
    ensures next == mid
  {
    hide Outcome, OneField;
    ArrayOutcome(doc, "$addToSet", field, v, now, mid);
    ArrayOutcome(mid, "$addToSet", field, v, now, next);
    ContainsAdded(Items(doc, field), v);
  }

  lemma ContainsAdded(items: seq<Value>, v: Value)
    ensures ArrayContains(items + [v], v)
  {
    CompareAgreesWithEqual(v, v);
    assert (items + [v])[|items|] == v;
  }

  /** `$pull` removes every item that equals the value and no other, so pulling undoes
      any pushes of the value. */
  lemma PullUndoesPush(doc: Document, field: string, v: Value, now: int, pushed: Document, next: Document, pulled: Document)
    requires AsMap(v) == map[]
    requires Outcome(doc, OneField("$push", field, v), now, pushed)
    requires Outcome(pushed, OneField("$pull", field, v), now, next)
    requires Outcome(doc, OneField("$pull", field, v), now, pulled)
    ensures next == pulled
    ensures forall item :: item in Items(next, field) <==> item in Items(doc, field) && !ValueEquals(item, v)
  {
    hide Outcome, OneField;
    ArrayOutcome(doc, "$push", field, v, now, pushed);
    ArrayOutcome(pushed, "$pull", field, v, now, next);
    ArrayOutcome(doc, "$pull", field, v, now, pulled);
    PullLast(Items(doc, field), v);
  }

  lemma PullLast(items: seq<Value>, v: Value)
    ensures var keep := Differs(v);
            && Filter(keep, items + [v]) == Filter(keep, items)
            && forall item :: item in Filter(keep, items) <==> item in items && !ValueEquals(item, v)
  {
    var keep := Differs(v);
    CompareAgreesWithEqual(v, v);
    FilterAppend(keep, items, [v]);
    assert [v][1..] == [];
    FilterMembers(keep, items);
  }

  /** Renaming to a free name and back restores the document; renaming a field to itself
      deletes it. */
  lemma RenameAndBack(doc: Document, a: string, b: string, now: int, mid: Document, next: Document)
    requires a in doc
    requires Outcome(doc, OneField("$rename", a, Str(b)), now, mid)
    requires Outcome(mid, OneField("$rename", b, Str(a)), now, next)
    ensures a != b && b !in doc ==> mid == doc[b := doc[a]] - {a} && next == doc
    ensures a == b ==> mid == doc - {a}
  {
    hide Outcome, OneField;
    Applied(doc, "$rename", a, Str(b), now, mid);
    Applied(mid, "$rename", b, Str(a), now, next);
    assert OperatorNamed("$rename") == Rename;
  }

  /** `$unset` undoes `$set` of a field that was not there. */
  lemma UnsetUndoesSet(doc: Document, field: string, v: Value, now: int, mid: Document, next: Document)
    requires Outcome(doc, OneField("$set", field, v), now, mid)
    requires Outcome(mid, OneField("$unset", field, v), now, next)
    ensures mid == doc[field := v]
    ensures next == doc - {field}
  {
    hide Outcome, OneField;
    Applied(doc, "$set", field, v, now, mid);
    Applied(mid, "$unset", field, v, now, next);
    assert OperatorNamed("$set") == Set && OperatorNamed("$unset") == Unset;
  }

  /** Replacing a document twice is replacing it once; its `_id` survives both. */
  lemma ReplaceTwice(doc: Document, u: Document, w: Document, now: int, mid: Document, next: Document)
    requires !OperatorStyle(u) && !OperatorStyle(w) && u != map[] && w != map[]
    requires "_id" !in u && "_id" !in w && Lookup(doc, "_id") != Null
    requires Outcome(doc, u, now, mid) && Outcome(mid, w, now, next)
    ensures next == w["_id" := doc["_id"]]
    ensures Outcome(doc, w, now, next)
  {
    assert Succeeds(u) && Succeeds(w);
  }

  // ----- two operators on one field -----

  /** Sets a field and applies another operator to it in one update. */
  function SetWith(name: string, field: string, a: Value, b: Value): Document {
    map["$set" := Map(map[field := a]), name := Map(map[field := b])]
  }

  lemma SetWithSteps(name: string, field: string, a: Value, b: Value)
    requires name != "$set" && OperatorNamed(name) !in {Rename, Unsupported}
    ensures var u := SetWith(name, field, a, b);
            var s, t := Step("$set", Set, field, a), Step(name, OperatorNamed(name), field, b);
            && Succeeds(u) && OperatorStyle(u) && u != map[]
            && forall step :: IsStepOf(u, step) <==> step == s || step == t
  {
    var u := SetWith(name, field, a, b);
    assert "$set" in u && "$set"[0] == '$' && OperatorNamed("$set") == Set;
    assert AsMap(u["$set"]) == map[field := a] && AsMap(u[name]) == map[field := b];
  }

  lemma TwoOrders(u: Document, s: Step, t: Step, steps: seq<Step>)
    requires s.name != t.name && forall step :: IsStepOf(u, step) <==> step == s || step == t
    ensures Linearizes(u, steps) <==> steps == [s, t] || steps == [t, s]
  {
    if Linearizes(u, steps) {
      assert s in steps && t in steps;
      assert forall i :: 0 <= i < |steps| ==> steps[i] in steps;
      TwoOfAKind(steps, s, t);
    }
  }

  lemma TwoOfAKind<T(!new)>(steps: seq<T>, s: T, t: T)
    requires NoRepeats(steps) && s in steps && t in steps && s != t
    requires forall x :: x in steps ==> x == s || x == t
    ensures steps == [s, t] || steps == [t, s]
  {
    var members := set x | x in steps;
    DistinctCount(steps);
    assert members - {s} == {t};
    assert |members - {s}| == 1;
    assert steps[0] in steps && steps[1] in steps;
  }

  /** The two outcomes: the other operator acts before the field is set, or after. */
  lemma SetWithOutcomes(doc: Document, name: string, field: string, a: Value, b: Value, now: int, next: Document)
    requires name != "$set" && OperatorNamed(name) !in {Rename, Unsupported}
    ensures Outcome(doc, SetWith(name, field, a, b), now, next) <==>
            || next == doc[field := a]
            || next == SetField(doc, field, NewField(OperatorNamed(name), Some(a), b, now))
  {
    hide ApplyStep, NewField, SetField, IsStepOf, OperatorStyle, Succeeds, Linearizes, SetWith;
    var u, op := SetWith(name, field, a, b), OperatorNamed(name);
    var s, t := Step("$set", Set, field, a), Step(name, op, field, b);
    SetWithSteps(name, field, a, b);
    RunPair(doc, s, t, now);
    RunPair(doc, t, s, now);
    SetThenApply(doc, field, a, op, name, b, now);
    forall steps ensures Linearizes(u, steps) <==> steps == [s, t] || steps == [t, s] {
      TwoOrders(u, s, t, steps);
    }
    assert Linearizes(u, [s, t]) && Linearizes(u, [t, s]);
  }

  lemma SetThenApply(doc: Document, field: string, a: Value, op: Operator, name: string, b: Value, now: int)
    requires op != Rename
    ensures var s, t := Step("$set", Set, field, a), Step(name, op, field, b);
            && ApplyStep(ApplyStep(doc, t, now), s, now) == doc[field := a]
            && ApplyStep(ApplyStep(doc, s, now), t, now) == SetField(doc, field, NewField(op, Some(a), b, now))
  {
    hide PushInto, AddNumbers, Compare;
  }

  /** `$set` with another operator on the same field has one outcome exactly when the
      operator leaves the value set as it is. */
  lemma SetWithExactly(doc: Document, name: string, field: string, a: Value, b: Value, now: int)
    requires name != "$set" && OperatorNamed(name) !in {Rename, Unsupported}
    ensures OneOutcome(doc, SetWith(name, field, a, b), now) <==>
            NewField(OperatorNamed(name), Some(a), b, now) == Some(a)
  {
    var u, v := SetWith(name, field, a, b), NewField(OperatorNamed(name), Some(a), b, now);
    forall next ensures Outcome(doc, u, now, next) <==> next == doc[field := a] || next == SetField(doc, field, v) {
      SetWithOutcomes(doc, name, field, a, b, now, next);
    }
    assert Outcome(doc, u, now, doc[field := a]) && Outcome(doc, u, now, SetField(doc, field, v));
    assert Field(SetField(doc, field, v), field) == v && Field(doc[field := a], field) == Some(a);
  }

  ghost predicate OneOutcome(doc: Document, u: Document, now: int) {
    forall next, other :: Outcome(doc, u, now, next) && Outcome(doc, u, now, other) ==> next == other
  }

  /** `$set` and `$inc` of one field: the increment must be by nothing, of a double, or
      store the same non-number. */
  lemma SetWithIncExactly(doc: Document, field: string, a: Value, b: Value, now: int)
    ensures OneOutcome(doc, SetWith("$inc", field, a, b), now) <==>
            if IsNumber(a) then a.Double? && ToFloat(b) == 0.0 else a == b
  {
    SetWithExactly(doc, "$inc", field, a, b, now);
    assert OperatorNamed("$inc") == Inc;
  }

  /** For example, setting 5 and adding 1 can give 5 or 6. */
  lemma OverlapIsOrderDependent(now: int)
    ensures Outcome(map[], SetWith("$inc", "a", Int32(5), Int32(1)), now, map["a" := Double(6.0)])
    ensures Outcome(map[], SetWith("$inc", "a", Int32(5), Int32(1)), now, map["a" := Int32(5)])
  {
    SetWithOutcomes(map[], "$inc", "a", Int32(5), Int32(1), now, map["a" := Double(6.0)]);
    SetWithOutcomes(map[], "$inc", "a", Int32(5), Int32(1), now, map["a" := Int32(5)]);
    assert OperatorNamed("$inc") == Inc;
  }

  // ----- what `$push` appends -----

  /** A document is never an item of its own `$each`. */
  lemma NotItsOwnItem(v: Value, x: Value)
    requires v.Map? && "$each" in v.m && v.m["$each"].Array? && x in v.m["$each"].a
    ensures x != v
  {
  }

  lemma PushedItems(v: Value, x: Value)
    requires AsMap(v) != map[] && x in PushInto([], v)
    ensures x in AsArray(Lookup(AsMap(v), "$each"))
  {
    var spec, each := AsMap(v), AsArray(Lookup(AsMap(v), "$each"));
    assert [] + each == each;
    if "$sort" in spec {
      SortPermutes(ValueLess(ToFloat(spec["$sort"]) < 0.0), [], each);
      assert multiset(Sort(ValueLess(ToFloat(spec["$sort"]) < 0.0), each)) == multiset(each);
      assert x in multiset(each);
    }
  }

  /** `$push` appends its operand, to whatever there is, exactly when the operand is not a
      document with fields. */
  lemma PushAppendsExactly(v: Value)
    ensures (forall items :: PushInto(items, v) == items + [v]) <==> AsMap(v) == map[]
  {
    if AsMap(v) != map[] && PushInto([], v) == [] + [v] {
      assert v in [v];
      PushedItems(v, v);
      NotItsOwnItem(v, v);
    }
  }
}
