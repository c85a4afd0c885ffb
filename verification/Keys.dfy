/** The key of a document (`ValueKey` and `DocumentIDKey` in
    internal/bsonutil/bsonutil.go).  Both stores file a document under it. */
module Keys {
  import opened Bson

  /** `strconv.FormatFloat(r, 'g', -1, 64)`. */
  const FormatDouble: real -> string

  function DocumentIDKey(doc: Document): Result<string> {
    if "_id" in doc then ValueKey(doc["_id"]) else Err("missing _id")
  }

  function ValueKey(v: Value): Result<string> {
    match v
    case ObjectID(oid) => Ok("objectid:" + Hex(oid))
    case Str(s) => Ok("string:" + s)
    case Int(n) => Ok("int64:" + FormatInt(n))
    case Int32(n) => Ok("int32:" + FormatInt(n))
    case Int64(n) => Ok("int64:" + FormatInt(n))
    case Double(r) => Ok("double:" + FormatDouble(r))
    case Binary(bytes) => Ok("binary:" + Base64(bytes))
    case _ => Err("unsupported _id type")
  }

  // ----- encodings -----

  function HexDigit(d: int): char
    requires 0 <= d < 16
  {
    if d < 10 then ('0' as int + d) as char else ('a' as int + d - 10) as char
  }

  function Hex(bytes: seq<Byte>): string {
    if bytes == [] then "" else [HexDigit(bytes[0] / 16), HexDigit(bytes[0] % 16)] + Hex(bytes[1..])
  }

  function Digit64(n: int): char
    requires 0 <= n < 64
  {
    if n < 26 then ('A' as int + n) as char
    else if n < 52 then ('a' as int + n - 26) as char
    else if n < 62 then ('0' as int + n - 52) as char
    else if n == 62 then '+'
    else '/'
  }

  /** The standard base64 encoding with padding (section 4 of RFC 4648). */
  function Base64(b: seq<Byte>): string {
    if b == [] then ""
    else if |b| == 1 then [Digit64(b[0] / 4), Digit64(b[0] % 4 * 16), '=', '=']
    else if |b| == 2 then
      [Digit64(b[0] / 4), Digit64(b[0] % 4 * 16 + b[1] / 16), Digit64(b[1] % 16 * 4), '=']
    else Quartet(b[0], b[1], b[2]) + Base64(b[3..])
  }

  function Quartet(x: Byte, y: Byte, z: Byte): (s: string)
    ensures |s| == 4
  {
    [Digit64(x / 4), Digit64(x % 4 * 16 + y / 16), Digit64(y % 16 * 4 + z / 64), Digit64(z % 64)]
  }

  // ----- injectivity -----

  lemma {:induction false} FormatNatDigits(n: nat)
    ensures forall i :: 0 <= i < |FormatNat(n)| ==> '0' <= FormatNat(n)[i] <= '9'
    ensures |FormatNat(n)| == 1 <==> n < 10
  {
    if n >= 10 {
      FormatNatDigits(n / 10);
    }
  }

  lemma {:induction false} FormatNatInjective(a: nat, b: nat)
    requires FormatNat(a) == FormatNat(b)
    ensures a == b
  {
    FormatNatDigits(a);
    FormatNatDigits(b);
    var s, n := FormatNat(a), |FormatNat(a)| - 1;
    if a >= 10 {
      assert s == FormatNat(a / 10) + [Digit(a % 10)] == FormatNat(b / 10) + [Digit(b % 10)];
      assert s[..n] == FormatNat(a / 10) == FormatNat(b / 10);
      assert s[n] == Digit(a % 10) == Digit(b % 10);
      FormatNatInjective(a / 10, b / 10);
    }
  }

  lemma SignShows(n: int)
    ensures |FormatInt(n)| > 0
    ensures FormatInt(n)[0] == '-' <==> n < 0
  {
    if n >= 0 {
      FormatNatDigits(n);
      assert '0' <= FormatNat(n)[0];
    }
  }

  lemma FormatIntInjective(a: int, b: int)
    requires FormatInt(a) == FormatInt(b)
    ensures a == b
  {
    SignShows(a);
    SignShows(b);
    if a < 0 {
      assert FormatInt(a)[1..] == FormatNat(-a) && FormatInt(b)[1..] == FormatNat(-b);
      FormatNatInjective(-a, -b);
    } else {
      FormatNatInjective(a, b);
    }
  }

  lemma {:induction false} HexInjective(a: seq<Byte>, b: seq<Byte>)
    requires Hex(a) == Hex(b)
    ensures a == b
  {
    if a != [] && b != [] {
      var s := Hex(a);
      assert s[0] == HexDigit(a[0] / 16) == HexDigit(b[0] / 16);
      assert s[1] == HexDigit(a[0] % 16) == HexDigit(b[0] % 16);
      assert a[0] == b[0];
      assert s[2..] == Hex(a[1..]) == Hex(b[1..]);
      HexInjective(a[1..], b[1..]);
      assert a == [a[0]] + a[1..] && b == [b[0]] + b[1..];
    }
  }

  lemma Digit64Injective(m: int, n: int)
    requires 0 <= m < 64 && 0 <= n < 64
    ensures Digit64(m) == Digit64(n) ==> m == n
    ensures Digit64(m) != '='
  {
  }

  lemma QuartetInjective(x: Byte, y: Byte, z: Byte, u: Byte, v: Byte, w: Byte)
    requires Quartet(x, y, z) == Quartet(u, v, w)
    ensures x == u && y == v && z == w
  {
    var s, t := Quartet(x, y, z), Quartet(u, v, w);
    assert s[0] == t[0] && s[1] == t[1] && s[2] == t[2] && s[3] == t[3];
    Digit64Injective(x / 4, u / 4);
    Digit64Injective(x % 4 * 16 + y / 16, u % 4 * 16 + v / 16);
    Digit64Injective(y % 16 * 4 + z / 64, v % 16 * 4 + w / 64);
    Digit64Injective(z % 64, w % 64);
  }

  /** A short group is a full one with zero bytes, marked by its padding. */
  lemma PaddingTellsLength(b: seq<Byte>)
    requires b != []
    ensures |Base64(b)| >= 4
    ensures Base64(b)[3] == '=' <==> |b| < 3
    ensures Base64(b)[2] == '=' <==> |b| < 2
    ensures |b| < 3 ==> |Base64(b)| == 4
  {
    if |b| >= 3 {
      Digit64Injective(b[2] % 64, 0);
      Digit64Injective(b[1] % 16 * 4 + b[2] / 64, 0);
    } else if |b| == 2 {
      Digit64Injective(b[1] % 16 * 4, 0);
    }
  }

  lemma {:induction false} Base64Injective(a: seq<Byte>, b: seq<Byte>)
    requires Base64(a) == Base64(b)
    ensures a == b
    decreases |a|
  {
    if a == [] || b == [] {
      if a != [] { PaddingTellsLength(a); }
      if b != [] { PaddingTellsLength(b); }
    } else {
      PaddingTellsLength(a);
      PaddingTellsLength(b);
      var s := Base64(a);
      if |a| >= 3 {
        assert s[..4] == Quartet(a[0], a[1], a[2]) == Quartet(b[0], b[1], b[2]);
        assert s[4..] == Base64(a[3..]) == Base64(b[3..]);
        QuartetInjective(a[0], a[1], a[2], b[0], b[1], b[2]);
        Base64Injective(a[3..], b[3..]);
        assert a == a[..3] + a[3..] && b == b[..3] + b[3..];
      } else {
        ShortGroupsInjective(a, b);
      }
    }
  }

  lemma ShortGroupsInjective(a: seq<Byte>, b: seq<Byte>)
    requires 1 <= |a| < 3 && |a| == |b|
    requires Base64(a) == Base64(b)
    ensures a == b
  {
    if |a| == 1 {
      PairInjective(a[0], b[0]);
    } else {
      TripleInjective(a[0], a[1], b[0], b[1]);
    }
  }

  lemma PairInjective(x: Byte, u: Byte)
    requires [Digit64(x / 4), Digit64(x % 4 * 16), '=', '='] == [Digit64(u / 4), Digit64(u % 4 * 16), '=', '=']
    ensures x == u
  {
    var s, t := [Digit64(x / 4), Digit64(x % 4 * 16), '=', '='], [Digit64(u / 4), Digit64(u % 4 * 16), '=', '='];
    assert s[0] == t[0] && s[1] == t[1];
    Digit64Injective(x / 4, u / 4);
    Digit64Injective(x % 4 * 16, u % 4 * 16);
  }

  lemma TripleInjective(x: Byte, y: Byte, u: Byte, v: Byte)
    requires [Digit64(x / 4), Digit64(x % 4 * 16 + y / 16), Digit64(y % 16 * 4), '='] ==
             [Digit64(u / 4), Digit64(u % 4 * 16 + v / 16), Digit64(v % 16 * 4), '=']
    ensures x == u && y == v
  {
    var s := [Digit64(x / 4), Digit64(x % 4 * 16 + y / 16), Digit64(y % 16 * 4), '='];
    var t := [Digit64(u / 4), Digit64(u % 4 * 16 + v / 16), Digit64(v % 16 * 4), '='];
    assert s[0] == t[0] && s[1] == t[1] && s[2] == t[2];
    Digit64Injective(x / 4, u / 4);
    Digit64Injective(x % 4 * 16 + y / 16, u % 4 * 16 + v / 16);
    Digit64Injective(y % 16 * 4, v % 16 * 4);
  }

  // ----- what a key identifies -----

  function IntegerOf(v: Value): int {
    match v
    case Int(n) => n
    case Int64(n) => n
    case _ => 0
  }

  /** Same `_id`, of the same type, where `int` and `int64` are one type.  Two doubles
      are the same when they have the same shortest decimal text, which for float64
      values other than NaN means that they are equal. */
  predicate SameId(a: Value, b: Value) {
    match a
    case ObjectID(oid) => b == a
    case Str(s) => b == a
    case Int(n) => (b.Int? || b.Int64?) && IntegerOf(b) == n
    case Int64(n) => (b.Int? || b.Int64?) && IntegerOf(b) == n
    case Int32(n) => b == a
    case Double(r) => b.Double? && FormatDouble(b.r) == FormatDouble(r)
    case Binary(bytes) => b == a
    case _ => false
  }

  function Tag(v: Value): string {
    match v
    case ObjectID(_) => "objectid:"
    case Str(_) => "string:"
    case Int32(_) => "int32:"
    case Int(_) => "int64:"
    case Int64(_) => "int64:"
    case Double(_) => "double:"
    case _ => "binary:"
  }

  function Payload(v: Value): string {
    match v
    case ObjectID(oid) => Hex(oid)
    case Str(s) => s
    case Int32(n) => FormatInt(n)
    case Int(n) => FormatInt(n)
    case Int64(n) => FormatInt(n)
    case Double(r) => FormatDouble(r)
    case Binary(bytes) => Base64(bytes)
    case _ => ""
  }

  lemma TagsDoNotOverlap(a: Value, b: Value, s: string, t: string)
    requires Tag(a) + s == Tag(b) + t
    ensures Tag(a) == Tag(b) && s == t
  {
    var u, v := Tag(a) + s, Tag(b) + t;
    assert u[0] == Tag(a)[0] && v[0] == Tag(b)[0];
    assert u[3] == Tag(a)[3] && v[3] == Tag(b)[3];
    assert |Tag(a)| == |Tag(b)|;
    assert s == u[|Tag(a)|..] && t == v[|Tag(b)|..];
  }

  lemma PayloadsInjective(a: Value, b: Value)
    requires ValueKey(a).Ok? && ValueKey(b).Ok?
    requires Tag(a) == Tag(b) && Payload(a) == Payload(b)
    ensures SameId(a, b)
  {
    assert Tag(a)[0] == Tag(b)[0] && Tag(a)[3] == Tag(b)[3];
    match a
    case ObjectID(oid) =>
      HexInjective(oid, b.oid);
    case Binary(bytes) =>
      Base64Injective(bytes, b.bytes);
    case Int32(n) =>
      FormatIntInjective(n, b.n32);
    case Int(n) =>
      FormatIntInjective(n, IntegerOf(b));
    case Int64(n) =>
      FormatIntInjective(n, IntegerOf(b));
    case _ =>
  }

  /** The key encoding is injective: two supported values have the same key exactly when
      they are the same `_id`. */
  lemma KeysIdentify(a: Value, b: Value)
    requires ValueKey(a).Ok? && ValueKey(b).Ok?
    ensures ValueKey(a) == ValueKey(b) <==> SameId(a, b)
  {
    assert ValueKey(a).value == Tag(a) + Payload(a);
    assert ValueKey(b).value == Tag(b) + Payload(b);
    if ValueKey(a) == ValueKey(b) {
      TagsDoNotOverlap(a, b, Payload(a), Payload(b));
      PayloadsInjective(a, b);
    }
  }
}
