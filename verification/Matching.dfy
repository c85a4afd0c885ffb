/** Filters (`Matches` and `matchValue` in internal/mql/mql.go).

    The predicates give a filter its meaning: the conjunction of its entries.  The
    methods evaluate it as the engine does, taking map entries in whatever order
    they come and returning at the first entry that fails. */
module Matching {
  import opened Bson
  import opened Paths

  /** Compiling the pattern and matching it; false when it does not compile. */
  const RegexMatches: (string, string) -> bool

  datatype Operator =
    | Eq | Ne | Gt | Gte | Lt | Lte | In | Nin | Exists | Regex | All | Size
    | ElemMatch | Not | Mod | Type | Ignored | Unknown

  function OperatorNamed(name: string): Operator {
    if name == "$eq" then Eq
    else if name == "$ne" then Ne
    else if name == "$gt" then Gt
    else if name == "$gte" then Gte
    else if name == "$lt" then Lt
    else if name == "$lte" then Lte
    else if name == "$in" then In
    else if name == "$nin" then Nin
    else if name == "$exists" then Exists
    else if name == "$regex" then Regex
    else if name == "$all" then All
    else if name == "$size" then Size
    else if name == "$elemMatch" then ElemMatch
    else if name == "$not" then Not
    else if name == "$mod" then Mod
    else if name == "$type" then Type
    else if name in {"$bitsAllSet", "$bitsAnyClear", "$geoWithin", "$geoIntersects", "$near"} then Ignored
    else Unknown
  }

  /** A filter that is not a document has no entries. */
  predicate Matches(doc: Document, filter: Value)
    decreases filter, 0, 0
  {
    filter.Map? ==> forall key | key in filter.m :: MatchesEntry(doc, key, filter.m[key])
  }

  predicate MatchesEntry(doc: Document, key: string, want: Value)
    decreases want, 2
  {
    if key == "$and" then
      want.Array? ==> forall i | 0 <= i < |want.a| :: Matches(doc, want.a[i])
    else if key == "$or" then
      want.Array? && exists i | 0 <= i < |want.a| :: Matches(doc, want.a[i])
    else if key == "$nor" then
      want.Array? ==> forall i | 0 <= i < |want.a| :: !Matches(doc, want.a[i])
    else if key in {"$expr", "$jsonSchema", "$text", "$where"} then
      true
    else
      var found := ValueByPath(doc, key);
      MatchValue(found.value, found.exists_, want)
  }

  predicate MatchValue(got: Value, exists_: bool, want: Value)
    decreases want, 0
  {
    if want.Map? then
      forall op | op in want.m :: MatchOp(got, exists_, OperatorNamed(op), want.m[op])
    else
      exists_ && ValueEquals(got, want)
  }

  predicate MatchOp(got: Value, exists_: bool, op: Operator, arg: Value)
    decreases arg, 1
  {
    if op.ElemMatch? then AnyItemMatches(AsArray(got), arg)
    else if op.Not? then !MatchValue(got, exists_, arg)
    else MatchPlainOp(got, exists_, op, arg)
  }

  /** The operators that evaluate no nested filter. */
  predicate MatchPlainOp(got: Value, exists_: bool, op: Operator, arg: Value) {
    match op
    case Eq => exists_ && ValueEquals(got, arg)
    case Ne => !(exists_ && ValueEquals(got, arg))
    case Gt => exists_ && Compare(got, arg) > 0
    case Gte => exists_ && Compare(got, arg) >= 0
    case Lt => exists_ && Compare(got, arg) < 0
    case Lte => exists_ && Compare(got, arg) <= 0
    case In => AnyEquals(got, AsArray(arg))
    case Nin => !AnyEquals(got, AsArray(arg))
    case Exists => exists_ == Truthy(arg)
    case Regex => RegexMatches(Sprint(arg), Sprint(got))
    case All => forall i | 0 <= i < |AsArray(arg)| :: ArrayContains(AsArray(got), AsArray(arg)[i])
    case Size => |AsArray(got)| == ToInt(arg)
    case Mod => MatchesMod(got, AsArray(arg))
    case Type => MatchesType(got, Sprint(arg))
    case Ignored => true
    case _ => false
  }

  predicate AnyEquals(got: Value, items: seq<Value>) {
    exists i | 0 <= i < |items| :: ValueEquals(got, items[i])
  }

  predicate AnyItemMatches(items: seq<Value>, arg: Value)
    decreases arg, 0, 1
  {
    exists i | 0 <= i < |items| :: AsMap(items[i]) != map[] && Matches(AsMap(items[i]), arg)
  }

  /** Go's `%`: the remainder takes the sign of the dividend. */
  function GoRemainder(n: int, d: int): int
    requires d != 0
  {
    if n >= 0 then n % d else -((-n) % d)
  }

  predicate MatchesMod(got: Value, args: seq<Value>) {
    |args| == 2 && ToInt(args[0]) != 0 && GoRemainder(ToInt(got), ToInt(args[0])) == ToInt(args[1])
  }

  predicate MatchesType(v: Value, name: string) {
    if name == "string" then v.Str?
    else if name == "int" then v.Int32?
    else if name == "long" then v.Int64?
    else if name == "double" || name == "decimal" then v.Double?
    else if name == "array" then v.Array?
    else if name == "object" then AsMap(v) != map[]
    else if name == "date" then v.DateTime?
    else true
  }

  // ----- validators -----

  predicate MatchesAnyType(v: Value, rawType: Value) {
    var types := AsArray(rawType);
    if types == [] then MatchesType(v, Sprint(rawType))
    else exists i | 0 <= i < |types| :: MatchesType(v, Sprint(types[i]))
  }

  /** `ValidateJSONSchema` accepts the document. */
  predicate Validates(validator: Document, doc: Document) {
    var schema := AsMap(Lookup(validator, "$jsonSchema"));
    var required := AsArray(Lookup(schema, "required"));
    var properties := AsMap(Lookup(schema, "properties"));
    && (forall i | 0 <= i < |required| :: required[i].Str? && required[i].s != "" ==> required[i].s in doc)
    && (forall field | field in properties && field in doc :: ValidField(doc[field], AsMap(properties[field])))
  }

  predicate ValidField(v: Value, spec: Document) {
    && ("enum" in spec ==> ArrayContains(AsArray(spec["enum"]), v))
    && ("bsonType" in spec ==> MatchesAnyType(v, spec["bsonType"]))
  }

  // ----- evaluation in arbitrary map order -----

  method MatchesLoop(doc: Document, filter: Value) returns (ok: bool)
    ensures ok == Matches(doc, filter)
    decreases filter, 0, 0
  {
    if !filter.Map? {
      return true;
    }
    var todo := filter.m.Keys;
    while todo != {}
      invariant todo <= filter.m.Keys
      invariant forall key :: key in filter.m && key !in todo ==> MatchesEntry(doc, key, filter.m[key])
      decreases todo
    {
      var key :| key in todo;
      todo := todo - {key};
      var entryOk := MatchesEntryLoop(doc, key, filter.m[key]);
      if !entryOk {
        return false;
      }
    }
    return true;
  }

  method MatchesEntryLoop(doc: Document, key: string, want: Value) returns (ok: bool)
    ensures ok == MatchesEntry(doc, key, want)
    decreases want, 2
  {
    if key in {"$and", "$or", "$nor"} {
      if !want.Array? {
        return key != "$or";
      }
      for i := 0 to |want.a|
        invariant forall j :: 0 <= j < i ==> Matches(doc, want.a[j]) == (key == "$and")
      {
        var alternative := MatchesLoop(doc, want.a[i]);
        if alternative != (key == "$and") {
          return key == "$or";
        }
      }
      return key != "$or";
    }
    if key in {"$expr", "$jsonSchema", "$text", "$where"} {
      return true;
    }
    var found := ValueByPathLoop(doc, key);
    ok := MatchValueLoop(found.value, found.exists_, want);
  }

  method MatchValueLoop(got: Value, exists_: bool, want: Value) returns (ok: bool)
    ensures ok == MatchValue(got, exists_, want)
    decreases want, 0, 0
  {
    if !want.Map? {
      return exists_ && ValueEquals(got, want);
    }
    var todo := want.m.Keys;
    while todo != {}
      invariant todo <= want.m.Keys
      invariant forall op :: op in want.m && op !in todo ==> MatchOp(got, exists_, OperatorNamed(op), want.m[op])
      decreases todo
    {
      var op :| op in todo;
      todo := todo - {op};
      var opOk := MatchOpLoop(got, exists_, OperatorNamed(op), want.m[op]);
      if !opOk {
        return false;
      }
    }
    return true;
  }

  method MatchOpLoop(got: Value, exists_: bool, op: Operator, arg: Value) returns (ok: bool)
    ensures ok == MatchOp(got, exists_, op, arg)
    decreases arg, 1
  {
    if op.ElemMatch? {
      ok := AnyItemMatchesLoop(AsArray(got), arg);
    } else if op.Not? {
      ok := MatchNotLoop(got, exists_, arg);
    } else {
      ok := MatchPlainOpLoop(got, exists_, op, arg);
    }
  }

  method MatchNotLoop(got: Value, exists_: bool, arg: Value) returns (ok: bool)
    ensures ok == MatchOp(got, exists_, Not, arg)
    decreases arg, 0, 1
  {
    var inner := MatchValueLoop(got, exists_, arg);
    ok := !inner;
  }

  method MatchPlainOpLoop(got: Value, exists_: bool, op: Operator, arg: Value) returns (ok: bool)
    ensures ok == MatchPlainOp(got, exists_, op, arg)
  {
    if op.In? || op.Nin? {
      var any := AnyEqualsLoop(got, AsArray(arg));
      return any == op.In?;
    }
    return MatchPlainOp(got, exists_, op, arg);
  }

  method AnyEqualsLoop(got: Value, items: seq<Value>) returns (any: bool)
    ensures any == AnyEquals(got, items)
  {
    for i := 0 to |items|
      invariant forall j :: 0 <= j < i ==> !ValueEquals(got, items[j])
    {
      if ValueEquals(got, items[i]) {
        return true;
      }
    }
    return false;
  }

  method AnyItemMatchesLoop(items: seq<Value>, arg: Value) returns (any: bool)
    ensures any == AnyItemMatches(items, arg)
    decreases arg, 0, 1
  {
    for i := 0 to |items|
      invariant forall j :: 0 <= j < i ==> !(AsMap(items[j]) != map[] && Matches(AsMap(items[j]), arg))
    {
      if AsMap(items[i]) != map[] {
        var itemOk := MatchesLoop(AsMap(items[i]), arg);
        if itemOk {
          return true;
        }
      }
    }
    return false;
  }

  // ----- laws -----

  function Single(key: string, v: Value): Value {
    Map(map[key := v])
  }

  lemma SingleEntry(doc: Document, key: string, want: Value)
    ensures Matches(doc, Single(key, want)) == MatchesEntry(doc, key, want)
  {
    assert Single(key, want).m[key] == want;
  }

  lemma SingleOp(got: Value, exists_: bool, op: string, arg: Value)
    ensures MatchValue(got, exists_, Single(op, arg)) == MatchOp(got, exists_, OperatorNamed(op), arg)
  {
    assert Single(op, arg).m[op] == arg;
  }

  /** `$nor` is the exact negation of `$or`. */
  lemma NorNegatesOr(doc: Document, alternatives: Value)
    ensures Matches(doc, Single("$nor", alternatives)) <==> !Matches(doc, Single("$or", alternatives))
  {
    SingleEntry(doc, "$nor", alternatives);
    SingleEntry(doc, "$or", alternatives);
  }

  /** `$not`, `$ne` and `$nin` are exact negations, also for missing fields. */
  lemma NotNegates(got: Value, exists_: bool, arg: Value)
    ensures MatchValue(got, exists_, Single("$not", arg)) <==> !MatchValue(got, exists_, arg)
  {
    SingleOp(got, exists_, "$not", arg);
  }

  lemma NeNegatesEq(got: Value, exists_: bool, arg: Value)
    ensures MatchValue(got, exists_, Single("$ne", arg)) <==> !MatchValue(got, exists_, Single("$eq", arg))
  {
    SingleOp(got, exists_, "$ne", arg);
    SingleOp(got, exists_, "$eq", arg);
  }

  lemma NinNegatesIn(got: Value, exists_: bool, arg: Value)
    ensures MatchValue(got, exists_, Single("$nin", arg)) <==> !MatchValue(got, exists_, Single("$in", arg))
  {
    SingleOp(got, exists_, "$nin", arg);
    SingleOp(got, exists_, "$in", arg);
  }

  /** For an existing field `$in` is the disjunction of `$eq`s; a missing field is
      compared as the nil value. */
  lemma InIsAnyEq(got: Value, exists_: bool, items: seq<Value>)
    ensures exists_ ==>
              (MatchValue(got, exists_, Single("$in", Array(items))) <==>
               exists i | 0 <= i < |items| :: MatchValue(got, exists_, Single("$eq", items[i])))
    ensures MatchValue(Null, false, Single("$in", Array(items))) <==>
            exists i | 0 <= i < |items| :: Sprint(items[i]) == "<nil>"
  {
    SingleOp(got, exists_, "$in", Array(items));
    SingleOp(Null, false, "$in", Array(items));
    forall i | 0 <= i < |items|
      ensures MatchValue(got, exists_, Single("$eq", items[i])) == (exists_ && ValueEquals(got, items[i]))
      ensures ValueEquals(Null, items[i]) == (Sprint(items[i]) == "<nil>")
    {
      SingleOp(got, exists_, "$eq", items[i]);
    }
  }

  /** Splitting a filter over disjoint keys, or under `$and`, keeps its meaning. */
  lemma AndIsConjunction(doc: Document, f: Document, g: Document)
    ensures Matches(doc, Single("$and", Array([Map(f), Map(g)]))) <==> Matches(doc, Map(f)) && Matches(doc, Map(g))
    ensures f.Keys !! g.Keys ==> (Matches(doc, Map(f + g)) <==> Matches(doc, Map(f)) && Matches(doc, Map(g)))
  {
    var both := [Map(f), Map(g)];
    SingleEntry(doc, "$and", Array(both));
    assert MatchesEntry(doc, "$and", Array(both)) <==> Matches(doc, both[0]) && Matches(doc, both[1]);
    if f.Keys !! g.Keys {
      forall key | key in f + g
        ensures MatchesEntry(doc, key, (f + g)[key]) <==>
                if key in f then MatchesEntry(doc, key, f[key]) else MatchesEntry(doc, key, g[key])
      {
      }
      assert forall key :: key in f ==> key in f + g;
      assert forall key :: key in g ==> key in f + g;
    }
  }

  /** The range `$gte v, $lte v` on an existing field is equality with the value as a
      whole.  It agrees with `$eq v` exactly when `$eq` does not succeed through an
      array element alone, so always for a field that is not an array. */
  lemma RangeIsEquality(got: Value, v: Value)
    ensures MatchValue(got, true, Map(map["$gte" := v, "$lte" := v])) <==> Equal(got, v)
    ensures (MatchValue(got, true, Map(map["$gte" := v, "$lte" := v])) <==> MatchValue(got, true, Single("$eq", v)))
            <==> (Equal(got, v) || !ArrayContains(AsArray(got), v))
    ensures !got.Array? ==>
              (MatchValue(got, true, Map(map["$gte" := v, "$lte" := v])) <==> MatchValue(got, true, Single("$eq", v)))
  {
    RangeOps(got, v);
    SingleOp(got, true, "$eq", v);
    CompareAgreesWithEqual(got, v);
  }

  lemma RangeOps(got: Value, v: Value)
    ensures MatchValue(got, true, Map(map["$gte" := v, "$lte" := v]))
            <==> MatchOp(got, true, Gte, v) && MatchOp(got, true, Lte, v)
  {
    var range := map["$gte" := v, "$lte" := v];
    assert "$gte" in range && "$lte" in range && range["$gte"] == v && range["$lte"] == v;
    assert OperatorNamed("$gte") == Gte && OperatorNamed("$lte") == Lte;
  }
}
