/** BSON values as the gateway holds them in memory, and the value order of the
    MQL engine (`compare` and `equal` in internal/mql/mql.go).

    Numbers are kept exact: a `float64` is a `real`, and converting an integer to
    `float64` is exact.  Renderings whose text does not matter to any result are
    uninterpreted constants: every theorem holds whatever they are. */
module Bson {

  type Byte = b: int | 0 <= b < 256
  type ObjectIdBytes = s: seq<Byte> | |s| == 12 witness seq(12, _ => 0)

  /** The dynamic types that reach the document engine. */
  datatype Value =
    | Null
    | Bool(b: bool)
    | Int(n: int)
    | Int32(n32: int)
    | Int64(n64: int)
    | Double(r: real)
    | Str(s: string)
    | ObjectID(oid: ObjectIdBytes)
    | Binary(bytes: seq<Byte>)
    | DateTime(ms: int)
    | Map(m: map<string, Value>)
    | Array(a: seq<Value>)

  type Document = map<string, Value>

  datatype Result<+T> = Ok(value: T) | Err(error: string)

  datatype Option<+T> = None | Some(get: T)

  /** `fmt.Sprint` of a float64. */
  const RenderFloat: real -> string

  /** `fmt.Sprint` of object ids, byte strings, dates, maps and arrays. */
  const RenderComposite: Value -> string

  // ----- conversions -----

  function AsMap(v: Value): Document {
    if v.Map? then v.m else map[]
  }

  function AsArray(v: Value): seq<Value> {
    if v.Array? then v.a else []
  }

  predicate IsNumber(v: Value) {
    v.Int? || v.Int32? || v.Int64? || v.Double?
  }

  function ToFloat(v: Value): real {
    match v
    case Int(n) => n as real
    case Int32(n) => n as real
    case Int64(n) => n as real
    case Double(r) => r
    case _ => 0.0
  }

  /** Go's float-to-integer conversion truncates toward zero. */
  function Trunc(r: real): int {
    if r >= 0.0 then r.Floor else -((-r).Floor)
  }

  function ToInt(v: Value): int {
    Trunc(ToFloat(v))
  }

  /** The whole number next to `r` on the side of zero. */
  lemma TruncatesTowardZero(r: real)
    ensures r >= 0.0 ==> Trunc(r) as real <= r < Trunc(r) as real + 1.0
    ensures r < 0.0 ==> Trunc(r) as real - 1.0 < r <= Trunc(r) as real
  {
  }

  predicate Truthy(v: Value) {
    v.Bool? && v.b
  }

  function Lookup(doc: Document, key: string): Value {
    if key in doc then doc[key] else Null
  }

  function Field(doc: Document, key: string): Option<Value> {
    if key in doc then Some(doc[key]) else None
  }

  // ----- rendering -----

  function Digit(d: int): char
    requires 0 <= d < 10
  {
    ('0' as int + d) as char
  }

  function FormatNat(n: nat): (s: string)
    ensures |s| > 0
  {
    if n < 10 then [Digit(n)] else FormatNat(n / 10) + [Digit(n % 10)]
  }

  /** `strconv.FormatInt(n, 10)`. */
  function FormatInt(n: int): string {
    if n < 0 then "-" + FormatNat(-n) else FormatNat(n)
  }

  function Sprint(v: Value): string {
    match v
    case Null => "<nil>"
    case Bool(b) => if b then "true" else "false"
    case Int(n) => FormatInt(n)
    case Int32(n) => FormatInt(n)
    case Int64(n) => FormatInt(n)
    case Double(r) => RenderFloat(r)
    case Str(s) => s
    case _ => RenderComposite(v)
  }

  // ----- order -----

  /** Go's `<` on strings: lexicographic. */
  predicate StrLess(a: string, b: string) {
    if b == [] then false
    else if a == [] then true
    else if a[0] != b[0] then a[0] < b[0]
    else StrLess(a[1..], b[1..])
  }

  function Compare(left: Value, right: Value): int {
    if IsNumber(left) && IsNumber(right) then
      var l, r := ToFloat(left), ToFloat(right);
      if l < r then -1 else if l > r then 1 else 0
    else
      var l, r := Sprint(left), Sprint(right);
      if StrLess(l, r) then -1 else if StrLess(r, l) then 1 else 0
  }

  predicate Equal(left: Value, right: Value) {
    if IsNumber(left) && IsNumber(right) then ToFloat(left) == ToFloat(right)
    else Sprint(left) == Sprint(right)
  }

  predicate ArrayContains(items: seq<Value>, item: Value) {
    exists i | 0 <= i < |items| :: Equal(items[i], item)
  }

  /** No two items are equal. */
  ghost predicate NoEqualPair(items: seq<Value>) {
    forall i, j :: 0 <= i < j < |items| ==> !Equal(items[i], items[j])
  }

  /** `valueEquals`: an array matches when an element does, or as a whole. */
  predicate ValueEquals(got: Value, want: Value) {
    ArrayContains(AsArray(got), want) || Equal(got, want)
  }

  /** Two values of one class: both numbers, or both non-numbers. */
  predicate Comparable(left: Value, right: Value) {
    IsNumber(left) <==> IsNumber(right)
  }

  lemma {:induction false} StrLessTrichotomy(a: string, b: string)
    ensures StrLess(a, b) ==> !StrLess(b, a)
    ensures !StrLess(a, b) && !StrLess(b, a) <==> a == b
  {
    if a != [] && b != [] && a[0] == b[0] {
      StrLessTrichotomy(a[1..], b[1..]);
      assert a == [a[0]] + a[1..] && b == [b[0]] + b[1..];
    }
  }

  lemma {:induction false} StrLessTransitive(a: string, b: string, c: string)
    requires StrLess(a, b) && StrLess(b, c)
    ensures StrLess(a, c)
  {
    if a != [] && a[0] == b[0] && b[0] == c[0] {
      StrLessTransitive(a[1..], b[1..], c[1..]);
    }
  }

  /** The first difference decides, or else the length. */
  lemma {:induction false} StrLessByFirstDifference(a: string, b: string)
    ensures StrLess(a, b) <==>
            exists n :: 0 <= n <= |a| && n < |b| && a[..n] == b[..n] && (n == |a| || a[n] < b[n])
    decreases |a|
  {
    if a != [] && b != [] && a[0] == b[0] {
      var c, d := a[1..], b[1..];
      StrLessByFirstDifference(c, d);
      if n :| 0 <= n <= |c| && n < |d| && c[..n] == d[..n] && (n == |c| || c[n] < d[n]) {
        assert a[..n + 1] == [a[0]] + c[..n] && b[..n + 1] == [b[0]] + d[..n];
      }
      if n :| 0 <= n <= |a| && n < |b| && a[..n] == b[..n] && (n == |a| || a[n] < b[n]) {
        assert n > 0;
        assert c[..n - 1] == a[..n][1..] && d[..n - 1] == b[..n][1..];
      }
    } else if b != [] {
      assert a[..0] == b[..0];
      PrefixesShareFirst(a, b);
    }
  }

  lemma PrefixesShareFirst(a: string, b: string)
    ensures forall n :: 0 < n <= |a| && n < |b| && a[..n] == b[..n] ==> a[0] == b[0]
  {
    forall n | 0 < n <= |a| && n < |b| && a[..n] == b[..n] ensures a[0] == b[0] {
      assert a[..n][0] == b[..n][0];
    }
  }

  /** Integers of all types, and doubles, are compared by their numbers. */
  lemma IntegersCompare(m: int, n: int, x: Value, y: Value)
    requires x in [Int(m), Int32(m), Int64(m), Double(m as real)]
    requires y in [Int(n), Int32(n), Int64(n), Double(n as real)]
    ensures Compare(x, y) < 0 <==> m < n
    ensures Equal(x, y) <==> m == n
  {
  }

  /** Anything else is compared by its text; a number equals its decimal digits. */
  lemma TextCompares(n: int, s: string, t: string)
    ensures Compare(Str(s), Str(t)) < 0 <==> StrLess(s, t)
    ensures Equal(Str(s), Str(t)) <==> s == t
    ensures Equal(Int32(n), Str(s)) <==> s == FormatInt(n)
    ensures Equal(Bool(true), Str(s)) <==> s == "true"
    ensures Equal(Bool(false), Str(s)) <==> s == "false"
    ensures Equal(Null, Str(s)) <==> s == "<nil>"
  {
    StrLessTrichotomy(s, t);
  }

  /** For every two values `compare` is antisymmetric, and it returns zero exactly
      when `equal` holds: the two functions agree even across classes. */
  lemma CompareAgreesWithEqual(left: Value, right: Value)
    ensures Compare(left, right) == -Compare(right, left)
    ensures Compare(left, right) == 0 <==> Equal(left, right)
    ensures -1 <= Compare(left, right) <= 1
  {
    StrLessTrichotomy(Sprint(left), Sprint(right));
  }

  /** Inside one class `compare` is a total preorder. */
  lemma CompareTransitive(x: Value, y: Value, z: Value)
    requires Comparable(x, y) && Comparable(y, z)
    requires Compare(x, y) <= 0 && Compare(y, z) <= 0
    ensures Compare(x, z) <= 0
    ensures Compare(x, z) == 0 ==> Compare(x, y) == 0 && Compare(y, z) == 0
  {
    if !IsNumber(x) {
      var a, b, c := Sprint(x), Sprint(y), Sprint(z);
      StrLessTrichotomy(a, b);
      StrLessTrichotomy(b, c);
      StrLessTrichotomy(a, c);
      if StrLess(a, b) && StrLess(b, c) {
        StrLessTransitive(a, b, c);
      }
    }
  }

  /** Across classes `compare` is not an order: 9 < 10 < "5" < 9. */
  lemma CompareCyclesAcrossClasses()
    ensures Compare(Int32(9), Int32(10)) < 0
    ensures Compare(Int32(10), Str("5")) < 0
    ensures Compare(Str("5"), Int32(9)) < 0
  {
    assert FormatNat(1) == "1" && FormatNat(10) == "1" + "0";
    assert FormatNat(9) == "9";
    assert FormatInt(10) == "10" && FormatInt(9) == "9";
    assert StrLess("10", "5") && StrLess("5", "9");
  }
}
