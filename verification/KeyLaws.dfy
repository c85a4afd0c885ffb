/** Reading document keys back: each encoding has a reader that undoes it
    (internal/bsonutil/bsonutil.go:22-41). */
module KeyLaws {
  import opened Bson
  import opened Keys

  // ----- decimal -----

  predicate IsDigit(c: char) {
    '0' <= c <= '9'
  }

  function DigitValue(c: char): int {
    c as int - '0' as int
  }

  function ReadNat(s: string): int {
    if s == "" then 0 else ReadNat(s[..|s| - 1]) * 10 + DigitValue(s[|s| - 1])
  }

  function ReadInt(s: string): int {
    if s != "" && s[0] == '-' then -ReadNat(s[1..]) else ReadNat(s)
  }

  /** The decimal text of a number reads as the number, has digits only and no zero in
      front. */
  lemma {:induction false} NatReadsBack(n: nat)
    ensures var s := FormatNat(n);
            ReadNat(s) == n && (forall c :: c in s ==> IsDigit(c)) && (n > 0 ==> s[0] != '0')
    decreases n
  {
    var s := FormatNat(n);
    if n < 10 {
      assert s[..0] == "" && ReadNat("") == 0;
    } else {
      NatReadsBack(n / 10);
      assert s[..|s| - 1] == FormatNat(n / 10);
      assert s[0] == FormatNat(n / 10)[0];
    }
  }

  lemma IntReadsBack(n: int)
    ensures ReadInt(FormatInt(n)) == n
  {
    if n < 0 {
      NatReadsBack(-n);
      assert FormatInt(n)[1..] == FormatNat(-n);
    } else {
      NatReadsBack(n);
      assert FormatNat(n)[0] in FormatNat(n);
    }
  }

  // ----- hex -----

  /** A hex digit; letters are lower case. */
  function Nibble(c: char): int {
    if IsDigit(c) then DigitValue(c)
    else if 'a' <= c <= 'f' then c as int - 'a' as int + 10
    else -1
  }

  function ReadHex(s: string): seq<int> {
    if |s| < 2 then [] else [Nibble(s[0]) * 16 + Nibble(s[1])] + ReadHex(s[2..])
  }

  lemma {:induction false} HexReadsBack(bytes: seq<Byte>)
    ensures ReadHex(Hex(bytes)) == bytes
    decreases |bytes|
  {
    if bytes != [] {
      HexReadsBack(bytes[1..]);
      var s := Hex(bytes);
      assert s[2..] == Hex(bytes[1..]);
      assert Nibble(s[0]) == bytes[0] / 16 && Nibble(s[1]) == bytes[0] % 16;
    }
  }

  // ----- base64 -----

  /** The six bits of a character of the alphabet of section 4 of RFC 4648. */
  function Sextet(c: char): int {
    if 'A' <= c <= 'Z' then c as int - 'A' as int
    else if 'a' <= c <= 'z' then c as int - 'a' as int + 26
    else if IsDigit(c) then DigitValue(c) + 52
    else if c == '+' then 62
    else if c == '/' then 63
    else -1
  }

  /** Four characters give 24 bits, and these three bytes, fewer when padded. */
  function ReadGroup(g: string): seq<int>
    requires |g| == 4
  {
    var bytes := Bytes(Bits(Sextet(g[0]), Sextet(g[1]), Pad(g[2]), Pad(g[3])));
    if g[2] == '=' then bytes[..1] else if g[3] == '=' then bytes[..2] else bytes
  }

  function Bits(p: int, q: int, r: int, s: int): int {
    ((p * 64 + q) * 64 + r) * 64 + s
  }

  function Bytes(n: int): (bytes: seq<int>)
    ensures |bytes| == 3
  {
    [n / 65536, n / 256 % 256, n % 256]
  }

  function ReadBase64(s: string): seq<int> {
    if |s| < 4 then [] else ReadGroup(s[..4]) + ReadBase64(s[4..])
  }

  function Pad(c: char): int {
    if c == '=' then 0 else Sextet(c)
  }

  lemma SextetOfDigit(n: int)
    requires 0 <= n < 64
    ensures Sextet(Digit64(n)) == n && Digit64(n) != '='
  {
  }

  /** The three bytes of a group, from its 24 bits. */
  lemma GroupBytes(x: Byte, y: Byte, z: Byte)
    ensures Bytes(Bits(x / 4, x % 4 * 16 + y / 16, y % 16 * 4 + z / 64, z % 64)) == [x, y, z]
  {
    SameBits(x / 4, x % 4, y / 16, y % 16, z / 64, z % 64);
    assert x == x / 4 * 4 + x % 4 && y == y / 16 * 16 + y % 16 && z == z / 64 * 64 + z % 64;
    BytesOf(x, y, z);
  }

  lemma SameBits(a: int, b: int, c: int, d: int, e: int, f: int)
    ensures Bits(a, b * 16 + c, d * 4 + e, f) == (a * 4 + b) * 65536 + (c * 16 + d) * 256 + (e * 64 + f)
  {
  }

  lemma BytesOf(x: Byte, y: Byte, z: Byte)
    ensures Bytes(x * 65536 + y * 256 + z) == [x, y, z]
  {
    var n := x * 65536 + y * 256 + z;
    assert n / 256 == x * 256 + y;
  }

  lemma {:induction false} Base64ReadsBack(b: seq<Byte>)
    ensures ReadBase64(Base64(b)) == b
    decreases |b|
  {
    hide ReadGroup, Quartet, Digit64;
    var s := Base64(b);
    if |b| > 2 {
      Base64ReadsBack(b[3..]);
      FullGroup(b[0], b[1], b[2]);
      assert s[..4] == Quartet(b[0], b[1], b[2]) && s[4..] == Base64(b[3..]);
      assert b == [b[0], b[1], b[2]] + b[3..];
    } else if b != [] {
      ShortGroup(b);
      assert s[..4] == s && s[4..] == "";
    }
  }

  lemma FullGroup(x: Byte, y: Byte, z: Byte)
    ensures ReadGroup(Quartet(x, y, z)) == [x, y, z]
  {
    hide Sextet, Digit64, Bits, Bytes;
    SextetOfDigit(x / 4);
    SextetOfDigit(x % 4 * 16 + y / 16);
    SextetOfDigit(y % 16 * 4 + z / 64);
    SextetOfDigit(z % 64);
    GroupBytes(x, y, z);
  }

  lemma ShortGroup(b: seq<Byte>)
    requires 0 < |b| <= 2
    ensures |Base64(b)| == 4 && ReadGroup(Base64(b)) == b
  {
    hide Sextet, Digit64, Bits, Bytes;
    var x: Byte, y: Byte := b[0], if |b| > 1 then b[1] else 0;
    SextetOfDigit(x / 4);
    SextetOfDigit(x % 4 * 16 + y / 16);
    SextetOfDigit(y % 16 * 4);
    GroupBytes(x, y, 0);
  }

  // ----- keys -----

  /** What a key says: the type named in front of the colon and the text behind it. */
  ghost predicate Says(key: string, tag: string, text: string) {
    key == tag + ":" + text
  }

  /** Every key names the type of its value, and its text reads as the value. */
  lemma KeySaysValue(v: Value, key: string) returns (text: string)
    requires ValueKey(v) == Ok(key)
    ensures v.ObjectID? ==> Says(key, "objectid", text) && ReadHex(text) == v.oid
    ensures v.Str? ==> Says(key, "string", text) && text == v.s
    ensures v.Int? ==> Says(key, "int64", text) && ReadInt(text) == v.n
    ensures v.Int32? ==> Says(key, "int32", text) && ReadInt(text) == v.n32
    ensures v.Int64? ==> Says(key, "int64", text) && ReadInt(text) == v.n64
    ensures v.Double? ==> Says(key, "double", text) && text == FormatDouble(v.r)
    ensures v.Binary? ==> Says(key, "binary", text) && ReadBase64(text) == v.bytes
  {
    hide ReadHex, ReadInt, ReadBase64, FormatInt, Hex, Base64;
    text := Payload(v);
    if v.ObjectID? {
      HexReadsBack(v.oid);
    } else if v.Binary? {
      Base64ReadsBack(v.bytes);
    } else if v.Int? || v.Int32? || v.Int64? {
      IntReadsBack(IntegerOrInt32(v));
    }
  }

  function IntegerOrInt32(v: Value): int {
    if v.Int32? then v.n32 else IntegerOf(v)
  }

  /** A document has a key exactly when it has an `_id` of one of these types. */
  lemma HasKey(doc: Document)
    ensures DocumentIDKey(doc).Ok? <==>
            && "_id" in doc
            && var id := doc["_id"];
               id.ObjectID? || id.Str? || id.Int? || id.Int32? || id.Int64? || id.Double? || id.Binary?
    ensures DocumentIDKey(doc).Ok? ==> DocumentIDKey(doc) == ValueKey(doc["_id"])
  {
  }
}
