/** What each filter operator decides, stated of whole filters and without the evaluator's
    own cases (internal/mql/mql.go:22-58, 331-462). */
module FilterLaws {
  import opened Bson
  import opened Matching
  import opened Paths

  /** A key of a filter that is a path. */
  predicate IsPath(key: string) {
    key !in {"$and", "$or", "$nor", "$expr", "$jsonSchema", "$text", "$where"}
  }

  /** The filter `{path: {name: arg}}`. */
  predicate Holds(doc: Document, path: string, name: string, arg: Value) {
    Matches(doc, Map(map[path := Map(map[name := arg])]))
  }

  lemma OneCondition(doc: Document, path: string, name: string, arg: Value)
    requires IsPath(path)
    ensures var found := ValueByPath(doc, path);
            Holds(doc, path, name, arg) <==> MatchOp(found.value, found.exists_, Matching.OperatorNamed(name), arg)
  {
    var found := ValueByPath(doc, path);
    SingleEntry(doc, path, Single(name, arg));
    SingleOp(found.value, found.exists_, name, arg);
    assert Single(path, Single(name, arg)) == Map(map[path := Map(map[name := arg])]);
  }

  lemma AllComparisons(doc: Document, path: string, v: Value)
    requires IsPath(path)
    ensures var found := ValueByPath(doc, path);
            && (Holds(doc, path, "$gt", v) <==> found.exists_ && Compare(found.value, v) > 0)
            && (Holds(doc, path, "$gte", v) <==> found.exists_ && Compare(found.value, v) >= 0)
            && (Holds(doc, path, "$lt", v) <==> found.exists_ && Compare(found.value, v) < 0)
            && (Holds(doc, path, "$lte", v) <==> found.exists_ && Compare(found.value, v) <= 0)
            && (Holds(doc, path, "$eq", v) <==> found.exists_ && ValueEquals(found.value, v))
            && (Holds(doc, path, "$ne", v) <==> !(found.exists_ && ValueEquals(found.value, v)))
  {
    hide Holds;
    OneCondition(doc, path, "$gt", v);
    OneCondition(doc, path, "$gte", v);
    OneCondition(doc, path, "$lt", v);
    OneCondition(doc, path, "$lte", v);
    OneCondition(doc, path, "$eq", v);
    OneCondition(doc, path, "$ne", v);
  }

  /** Numbers, of whatever types, are compared as numbers. */
  lemma NumbersCompare(doc: Document, path: string, v: Value)
    requires IsPath(path) && IsNumber(v)
    requires ValueByPath(doc, path).exists_ && IsNumber(ValueByPath(doc, path).value)
    ensures var x, y := ToFloat(ValueByPath(doc, path).value), ToFloat(v);
            && (Holds(doc, path, "$gt", v) <==> x > y)
            && (Holds(doc, path, "$gte", v) <==> x >= y)
            && (Holds(doc, path, "$lt", v) <==> x < y)
            && (Holds(doc, path, "$lte", v) <==> x <= y)
            && (Holds(doc, path, "$eq", v) <==> x == y)
            && (Holds(doc, path, "$ne", v) <==> x != y)
  {
    hide Holds;
    AllComparisons(doc, path, v);
  }

  /** Strings are compared by their bytes. */
  lemma StringsCompare(doc: Document, path: string, s: string, t: string)
    requires IsPath(path) && ValueByPath(doc, path) == Found(Str(s), true)
    ensures && (Holds(doc, path, "$gt", Str(t)) <==> StrLess(t, s))
            && (Holds(doc, path, "$gte", Str(t)) <==> StrLess(t, s) || s == t)
            && (Holds(doc, path, "$lt", Str(t)) <==> StrLess(s, t))
            && (Holds(doc, path, "$lte", Str(t)) <==> StrLess(s, t) || s == t)
            && (Holds(doc, path, "$eq", Str(t)) <==> s == t)
            && (Holds(doc, path, "$ne", Str(t)) <==> s != t)
  {
    hide Holds;
    AllComparisons(doc, path, Str(t));
    StrLessTrichotomy(s, t);
  }

  /** A missing field meets no comparison but `$ne`. */
  lemma MissingField(doc: Document, path: string, v: Value)
    requires IsPath(path) && !ValueByPath(doc, path).exists_
    ensures !Holds(doc, path, "$gt", v) && !Holds(doc, path, "$gte", v)
    ensures !Holds(doc, path, "$lt", v) && !Holds(doc, path, "$lte", v)
    ensures !Holds(doc, path, "$eq", v) && Holds(doc, path, "$ne", v)
  {
    hide Holds;
    AllComparisons(doc, path, v);
  }

  /** A condition that is not a document: the field exists and is the value, or is an
      array that holds it. */
  lemma PlainCondition(doc: Document, path: string, v: Value)
    requires IsPath(path) && !v.Map?
    ensures var found := ValueByPath(doc, path);
            Matches(doc, Map(map[path := v])) <==>
            found.exists_ && (Equal(found.value, v) || exists x :: x in AsArray(found.value) && Equal(x, v))
  {
    SingleEntry(doc, path, v);
    assert Single(path, v) == Map(map[path := v]);
    ContainsAny(AsArray(ValueByPath(doc, path).value), v);
  }

  lemma ContainsAny(items: seq<Value>, v: Value)
    ensures ArrayContains(items, v) <==> HoldsEqual(items, v)
  {
    if ArrayContains(items, v) {
      var i :| 0 <= i < |items| && Equal(items[i], v);
      assert items[i] in items;
    }
  }

  lemma ExistsDecides(doc: Document, path: string, v: Value)
    requires IsPath(path)
    ensures Holds(doc, path, "$exists", v) <==> ValueByPath(doc, path).exists_ == (v == Bool(true))
  {
    OneCondition(doc, path, "$exists", v);
  }

  lemma WholeNumber(n: int)
    ensures Trunc(n as real) == n
  {
    var x := n as real;
    if n < 0 {
      assert (-x).Floor == -n;
    } else {
      assert x.Floor == n;
    }
  }

  /** The number of items; anything but an array has none. */
  lemma SizeDecides(doc: Document, path: string, n: int, v: Value)
    requires IsPath(path) && (v == Int(n) || v == Int32(n) || v == Int64(n) || v == Double(n as real))
    ensures Holds(doc, path, "$size", v) <==> |AsArray(ValueByPath(doc, path).value)| == n
  {
    OneCondition(doc, path, "$size", v);
    WholeNumber(n);
    assert ToFloat(v) == n as real;
    assert Matching.OperatorNamed("$size") == Size;
  }

  /** Every item of the operand equals some item of the field. */
  lemma AllDecides(doc: Document, path: string, items: seq<Value>)
    requires IsPath(path)
    ensures Holds(doc, path, "$all", Array(items)) <==>
            forall x :: x in items ==> HoldsEqual(AsArray(ValueByPath(doc, path).value), x)
  {
    OneCondition(doc, path, "$all", Array(items));
    assert Matching.OperatorNamed("$all") == All;
    var held, arg := AsArray(ValueByPath(doc, path).value), Array(items);
    assert AsArray(arg) == items;
    forall i | 0 <= i < |items|
      ensures items[i] in items && (ArrayContains(held, items[i]) <==> HoldsEqual(held, items[i]))
    {
      ContainsAny(held, items[i]);
    }
    if Holds(doc, path, "$all", arg) {
      forall x | x in items ensures HoldsEqual(held, x) {
        var i :| 0 <= i < |items| && items[i] == x;
        assert ArrayContains(held, AsArray(arg)[i]);
      }
    }
  }

  ghost predicate HoldsEqual(items: seq<Value>, v: Value) {
    exists x :: x in items && Equal(x, v)
  }

  function Magnitude(n: int): nat {
    if n < 0 then -n else n
  }

  /** `r` is what division towards zero leaves: smaller than the divisor, with the sign of
      the dividend. */
  ghost predicate LeavesRemainder(n: int, d: int, r: int) {
    && d != 0 && (r > 0 ==> n > 0) && (r < 0 ==> n < 0) && Magnitude(r) < Magnitude(d)
    && exists q: nat :: Magnitude(n) == Times(q, Magnitude(d)) + Magnitude(r)
  }

  function Times(q: int, d: int): int {
    q * d
  }

  lemma Multiples(k: int, d: nat)
    ensures k >= 1 ==> k * d >= d
    ensures k <= -1 ==> k * d + d <= 0
  {
    if k >= 1 {
      assert (k - 1) * d >= 0;
    } else if k <= -1 {
      assert (-1 - k) * d >= 0;
    }
  }

  lemma RemainderUnique(n: nat, d: nat, q: int, r: nat)
    requires n == q * d + r && r < d
    ensures n % d == r
  {
    var p := n / d;
    assert n == p * d + n % d;
    assert (p - q) * d == p * d - q * d;
    Multiples(p - q, d);
  }

  lemma GoRemainderDecides(n: int, d: int, r: int)
    requires d != 0
    ensures GoRemainder(n, d) == r <==> LeavesRemainder(n, d, r)
  {
    var m, e := Magnitude(n), Magnitude(d);
    SameRemainder(m, d);
    var q := m / e;
    assert m == Times(q, e) + m % e;
    if LeavesRemainder(n, d, r) {
      var p: nat :| m == Times(p, e) + Magnitude(r);
      RemainderUnique(m, e, p, Magnitude(r));
    }
  }

  lemma SameRemainder(m: nat, d: int)
    requires d != 0
    ensures m % d == m % Magnitude(d)
  {
    var e := Magnitude(d);
    if d < 0 {
      var q := m / d;
      assert m == (-q) * e + m % d;
      RemainderUnique(m, e, -q, m % d);
    }
  }

  lemma ModDecides(doc: Document, path: string, n: int, d: int, r: int)
    requires IsPath(path) && ValueByPath(doc, path).value in [Int(n), Int32(n), Int64(n)]
    ensures Holds(doc, path, "$mod", Array([Int64(d), Int64(r)])) <==> LeavesRemainder(n, d, r)
  {
    OneCondition(doc, path, "$mod", Array([Int64(d), Int64(r)]));
    WholeNumber(n);
    WholeNumber(d);
    WholeNumber(r);
    if d != 0 {
      GoRemainderDecides(n, d, r);
    }
  }

  /** `$mod` needs two operands. */
  lemma ModNeedsTwo(doc: Document, path: string, args: seq<Value>)
    requires IsPath(path) && |args| != 2
    ensures !Holds(doc, path, "$mod", Array(args))
  {
    OneCondition(doc, path, "$mod", Array(args));
  }

  lemma TypeIs(doc: Document, path: string, name: string)
    requires IsPath(path)
    ensures Holds(doc, path, "$type", Str(name)) <==> MatchesType(ValueByPath(doc, path).value, name)
  {
    OneCondition(doc, path, "$type", Str(name));
    assert Matching.OperatorNamed("$type") == Type;
  }

  lemma TypeDecides(doc: Document, path: string)
    requires IsPath(path)
    ensures var v := ValueByPath(doc, path).value;
            && (Holds(doc, path, "$type", Str("string")) <==> v.Str?)
            && (Holds(doc, path, "$type", Str("int")) <==> v.Int32?)
            && (Holds(doc, path, "$type", Str("long")) <==> v.Int64?)
            && (Holds(doc, path, "$type", Str("double")) <==> v.Double?)
            && (Holds(doc, path, "$type", Str("decimal")) <==> v.Double?)
            && (Holds(doc, path, "$type", Str("array")) <==> v.Array?)
            && (Holds(doc, path, "$type", Str("object")) <==> v.Map? && v.m != map[])
            && (Holds(doc, path, "$type", Str("date")) <==> v.DateTime?)
  {
    hide Holds;
    TypeIs(doc, path, "string");
    TypeIs(doc, path, "int");
    TypeIs(doc, path, "long");
    TypeIs(doc, path, "double");
    TypeIs(doc, path, "decimal");
    TypeIs(doc, path, "array");
    TypeIs(doc, path, "object");
    TypeIs(doc, path, "date");
  }

  /** Any other type name accepts everything. */
  lemma OtherTypeAccepts(doc: Document, path: string, name: string)
    requires IsPath(path)
    requires name !in {"string", "int", "long", "double", "decimal", "array", "object", "date"}
    ensures Holds(doc, path, "$type", Str(name))
  {
    TypeIs(doc, path, name);
  }

  lemma ElemMatchDecides(doc: Document, path: string, filter: Document)
    requires IsPath(path)
    ensures Holds(doc, path, "$elemMatch", Map(filter)) <==>
            exists x :: x in AsArray(ValueByPath(doc, path).value) && x.Map? && x.m != map[] && Matches(x.m, Map(filter))
  {
    OneCondition(doc, path, "$elemMatch", Map(filter));
    var items := AsArray(ValueByPath(doc, path).value);
    if AnyItemMatches(items, Map(filter)) {
      var i :| 0 <= i < |items| && AsMap(items[i]) != map[] && Matches(AsMap(items[i]), Map(filter));
      assert items[i] in items;
    }
  }

  /** The pattern is the operand and the text the field. */
  lemma RegexDecides(doc: Document, path: string, pattern: string, text: string)
    requires IsPath(path) && ValueByPath(doc, path).value == Str(text)
    ensures Holds(doc, path, "$regex", Str(pattern)) <==> RegexMatches(pattern, text)
  {
    OneCondition(doc, path, "$regex", Str(pattern));
  }

  const IGNORED := {"$bitsAllSet", "$bitsAnyClear", "$geoWithin", "$geoIntersects", "$near"}
  const COMPARING := {"$eq", "$ne", "$gt", "$gte", "$lt", "$lte", "$in", "$nin"}
  const TESTING := {"$exists", "$regex", "$all", "$size", "$elemMatch", "$not", "$mod", "$type"}

  /** Bit and geometry operators accept everything; unknown ones nothing. */
  lemma OtherOperators(doc: Document, path: string, name: string, arg: Value)
    requires IsPath(path) && name !in COMPARING && name !in TESTING
    ensures Holds(doc, path, name, arg) <==> name in IGNORED
  {
    hide Holds;
    OneCondition(doc, path, name, arg);
    NotAnOperator(name);
  }

  lemma NotAnOperator(name: string)
    requires name !in COMPARING && name !in TESTING
    ensures Matching.OperatorNamed(name) == if name in IGNORED then Ignored else Unknown
  {
  }

  /** The operators of one condition all have to hold. */
  lemma ConditionsConjoin(doc: Document, path: string, f: Document, g: Document)
    requires IsPath(path) && f.Keys !! g.Keys
    ensures Matches(doc, Map(map[path := Map(f + g)])) <==>
            Matches(doc, Map(map[path := Map(f)])) && Matches(doc, Map(map[path := Map(g)]))
  {
    ConditionAlone(doc, path, f);
    ConditionAlone(doc, path, g);
    ConditionAlone(doc, path, f + g);
    assert forall op :: op in f ==> (f + g)[op] == f[op];
    assert forall op :: op in g ==> (f + g)[op] == g[op];
  }

  lemma ConditionAlone(doc: Document, path: string, f: Document)
    requires IsPath(path)
    ensures var found := ValueByPath(doc, path);
            Matches(doc, Map(map[path := Map(f)])) <==>
            forall op :: op in f ==> MatchOp(found.value, found.exists_, Matching.OperatorNamed(op), f[op])
  {
    SingleEntry(doc, path, Map(f));
    assert Single(path, Map(f)) == Map(map[path := Map(f)]);
  }

  /** `$or` needs one of its filters, `$and` all, `$nor` none. */
  lemma LogicDecides(doc: Document, filters: seq<Value>)
    ensures Matches(doc, Map(map["$or" := Array(filters)])) <==> exists f :: f in filters && Matches(doc, f)
    ensures Matches(doc, Map(map["$and" := Array(filters)])) <==> forall f :: f in filters ==> Matches(doc, f)
    ensures Matches(doc, Map(map["$nor" := Array(filters)])) <==> forall f :: f in filters ==> !Matches(doc, f)
  {
    LogicEntry(doc, "$or", filters);
    LogicEntry(doc, "$and", filters);
    LogicEntry(doc, "$nor", filters);
    assert forall i :: 0 <= i < |filters| ==> filters[i] in filters;
  }

  lemma LogicEntry(doc: Document, key: string, filters: seq<Value>)
    requires key in {"$or", "$and", "$nor"}
    ensures Matches(doc, Map(map[key := Array(filters)])) <==>
            if key == "$or" then exists i :: 0 <= i < |filters| && Matches(doc, filters[i])
            else if key == "$and" then forall i :: 0 <= i < |filters| ==> Matches(doc, filters[i])
            else forall i :: 0 <= i < |filters| ==> !Matches(doc, filters[i])
  {
    SingleEntry(doc, key, Array(filters));
    assert Single(key, Array(filters)) == Map(map[key := Array(filters)]);
  }

  /** The empty filter, and one on keys the engine ignores, match everything. */
  lemma IgnoredKeys(doc: Document, key: string, want: Value)
    requires key in {"$expr", "$jsonSchema", "$text", "$where"}
    ensures Matches(doc, Map(map[])) && Matches(doc, Map(map[key := want]))
  {
    SingleEntry(doc, key, want);
    assert Single(key, want) == Map(map[key := want]);
  }

  // ----- validators -----

  function Strings(names: seq<string>): Value {
    Array(seq(|names|, i requires 0 <= i < |names| => Str(names[i])))
  }

  function Schema(required: seq<string>, properties: Document): Document {
    map["$jsonSchema" := Map(map["required" := Strings(required), "properties" := Map(properties)])]
  }

  /** A schema accepts a document exactly when it has the required fields and each of its
      fields meets the property of that name. */
  lemma SchemaDecides(doc: Document, required: seq<string>, properties: Document)
    ensures Validates(Schema(required, properties), doc) <==>
            && (forall name :: name in required && name != "" ==> name in doc)
            && forall f :: f in properties && f in doc ==>
                 Validates(Schema([], map[f := properties[f]]), doc)
  {
    SchemaParts(doc, required, properties);
    forall f | f in properties && f in doc
      ensures Validates(Schema([], map[f := properties[f]]), doc) <==> ValidField(doc[f], AsMap(properties[f]))
    {
      SchemaParts(doc, [], map[f := properties[f]]);
    }
  }

  lemma SchemaParts(doc: Document, required: seq<string>, properties: Document)
    ensures Validates(Schema(required, properties), doc) <==>
            && (forall name :: name in required && name != "" ==> name in doc)
            && forall f :: f in properties && f in doc ==> ValidField(doc[f], AsMap(properties[f]))
  {
    var schema := AsMap(Lookup(Schema(required, properties), "$jsonSchema"));
    assert Lookup(schema, "required") == Strings(required) && Lookup(schema, "properties") == Map(properties);
    var names := AsArray(Strings(required));
    forall i | 0 <= i < |names| ensures names[i] == Str(required[i]) && required[i] in required {
    }
  }

  /** A `bsonType` property accepts what the `$type` filter accepts. */
  lemma TypePropertyIsFilter(doc: Document, f: string, name: string)
    requires '.' !in f && IsPath(f) && f in doc
    ensures Validates(Schema([], map[f := Map(map["bsonType" := Str(name)])]), doc) <==>
            Holds(doc, f, "$type", Str(name))
  {
    PropertyDecides(doc, f, map["bsonType" := Str(name)]);
    OneCondition(doc, f, "$type", Str(name));
    PlainPath(doc, f);
  }

  /** A list of types accepts what one of them accepts. */
  lemma TypeListIsAny(doc: Document, f: string, names: seq<string>)
    requires f in doc && names != []
    ensures Validates(Schema([], map[f := Map(map["bsonType" := Strings(names)])]), doc) <==>
            exists name :: name in names && Validates(Schema([], map[f := Map(map["bsonType" := Str(name)])]), doc)
  {
    PropertyDecides(doc, f, map["bsonType" := Strings(names)]);
    forall name: string
      ensures Validates(Schema([], map[f := Map(map["bsonType" := Str(name)])]), doc) <==> MatchesType(doc[f], name)
    {
      PropertyDecides(doc, f, map["bsonType" := Str(name)]);
      OneType(doc[f], name);
    }
    AnyType(doc[f], names);
  }

  lemma OneType(v: Value, name: string)
    ensures MatchesAnyType(v, Str(name)) <==> MatchesType(v, name)
  {
  }

  lemma AnyType(v: Value, names: seq<string>)
    requires names != []
    ensures MatchesAnyType(v, Strings(names)) <==> exists name :: name in names && MatchesType(v, name)
  {
    hide MatchesType;
    var types := AsArray(Strings(names));
    assert |types| == |names| && forall i :: 0 <= i < |types| ==> types[i] == Str(names[i]) && names[i] in names;
    if name :| name in names && MatchesType(v, name) {
      var i :| 0 <= i < |names| && names[i] == name;
      assert MatchesType(v, Sprint(types[i]));
    }
  }

  /** An `enum` property accepts the values that equal one of its items. */
  lemma EnumDecides(doc: Document, f: string, items: seq<Value>)
    requires f in doc
    ensures Validates(Schema([], map[f := Map(map["enum" := Array(items)])]), doc) <==>
            exists x :: x in items && Equal(x, doc[f])
  {
    PropertyDecides(doc, f, map["enum" := Array(items)]);
    ContainsAny(items, doc[f]);
  }

  lemma PropertyDecides(doc: Document, f: string, spec: Document)
    requires f in doc
    ensures Validates(Schema([], map[f := Map(spec)]), doc) <==> ValidField(doc[f], spec)
  {
    SchemaParts(doc, [], map[f := Map(spec)]);
  }

  /** Without a schema every document is accepted. */
  lemma NoSchemaAccepts(validator: Document, doc: Document)
    requires "$jsonSchema" !in validator
    ensures Validates(validator, doc)
  {
  }
}
