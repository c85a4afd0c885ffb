/** Conversion between the documents of the gateway, which are maps, and the ordered
    documents of the driver (internal/wire/server.go:226-312). */
module Wire {
  import opened Bson
  import opened Enumerations

  /** The dynamic types the conversion tells apart: `bson.M`, `bson.A`, `bson.D`, `[]any`
      and the rest. */
  datatype Any =
    | Scalar(v: Value)
    | M(m: map<string, Any>)
    | A(items: seq<Any>)
    | D(elems: seq<Elem>)
    | Slice(elements: seq<Any>)

  datatype Elem = E(key: string, value: Any)

  /** The keys a reply starts with. */
  const LEADING := ["ok", "errmsg", "code", "cursor"]

  // ----- to the driver -----

  function Present(doc: map<string, Any>, keys: seq<string>): seq<string> {
    if keys == [] then []
    else
      var rest := Present(doc, keys[..|keys| - 1]);
      var key := keys[|keys| - 1];
      if key in doc then rest + [key] else rest
  }

  function KeysOf(elems: seq<Elem>): seq<string> {
    seq(|elems|, i requires 0 <= i < |elems| => elems[i].key)
  }

  /** `elems` is an ordered form of `doc`: each key once, the leading keys first. */
  ghost predicate IsBSOND(doc: Any, elems: seq<Elem>)
    requires doc.M?
    decreases doc, 0
  {
    && NoRepeats(KeysOf(elems))
    && (forall k :: k in KeysOf(elems) <==> k in doc.m)
    && Present(doc.m, LEADING) <= KeysOf(elems)
    && forall k, i | k in doc.m && 0 <= i < |elems| && elems[i].key == k :: IsDriverValue(doc.m[k], elems[i].value)
  }

  ghost predicate IsDriverValue(v: Any, w: Any)
    decreases v, 1
  {
    match v
    case M(_) => w.D? && IsBSOND(v, w.elems)
    case A(items) => w.A? && |w.items| == |items| && forall i | 0 <= i < |items| :: IsDriverValue(items[i], w.items[i])
    case _ => w == v
  }

  // ----- from the driver -----

  /** Of equal keys the last wins. */
  function FromElems(elems: seq<Elem>): map<string, Any>
    decreases elems, 0
  {
    if elems == [] then map[]
    else
      var last := elems[|elems| - 1];
      FromElems(elems[..|elems| - 1])[last.key := NormalizeValue(last.value)]
  }

  /** A map is kept as it is: its values are not visited. */
  function NormalizeValue(v: Any): Any
    decreases v, 1
  {
    match v
    case D(elems) => M(FromElems(elems))
    case A(items) => A(seq(|items|, i requires 0 <= i < |items| => NormalizeValue(items[i])))
    case Slice(items) => A(seq(|items|, i requires 0 <= i < |items| => NormalizeValue(items[i])))
    case _ => v
  }

  function NormalizeDoc(v: Any): Result<map<string, Any>> {
    match v
    case D(elems) => Ok(FromElems(elems))
    case M(m) => Ok(map k | k in m :: NormalizeValue(m[k]))
    case _ => Err("not a document")
  }

  // ----- the conversions as the gateway runs them -----

  /** The elements emitted so far: those of the keys that are not in `todo`. */
  ghost predicate Emitted(doc: Any, elems: seq<Elem>, todo: set<string>)
    requires doc.M?
  {
    && NoRepeats(KeysOf(elems))
    && (forall k :: k in KeysOf(elems) <==> k in doc.m && k !in todo)
    && forall i | 0 <= i < |elems| && elems[i].key in doc.m :: IsDriverValue(doc.m[elems[i].key], elems[i].value)
  }

  lemma EmitOne(doc: Any, elems: seq<Elem>, todo: set<string>, e: Elem)
    requires doc.M? && Emitted(doc, elems, todo)
    requires e.key in doc.m && e.key in todo && IsDriverValue(doc.m[e.key], e.value)
    ensures Emitted(doc, elems + [e], todo - {e.key})
    ensures KeysOf(elems + [e]) == KeysOf(elems) + [e.key]
  {
    assert KeysOf(elems + [e]) == KeysOf(elems) + [e.key];
  }

  /** `toBSOND`: the leading keys, then the others in whatever order the map gives. */
  method ToBSOND(doc: Any) returns (elems: seq<Elem>)
    requires doc.M?
    ensures IsBSOND(doc, elems)
    decreases doc, 0
  {
    elems := [];
    var todo := doc.m.Keys;
    for i := 0 to |LEADING|
      invariant Emitted(doc, elems, todo)
      invariant KeysOf(elems) == Present(doc.m, LEADING[..i])
      invariant todo == doc.m.Keys - set j | 0 <= j < i :: LEADING[j]
    {
      assert LEADING[..i + 1][..i] == LEADING[..i];
      var key := LEADING[i];
      assert key in todo <==> key in doc.m;
      if key in doc.m {
        var value := ToDriverValue(doc.m[key]);
        EmitOne(doc, elems, todo, E(key, value));
        elems, todo := elems + [E(key, value)], todo - {key};
      }
    }
    assert LEADING[..|LEADING|] == LEADING;
    while todo != {}
      invariant todo <= doc.m.Keys
      invariant Emitted(doc, elems, todo)
      invariant Present(doc.m, LEADING) <= KeysOf(elems)
      decreases todo
    {
      var key :| key in todo;
      var value := ToDriverValue(doc.m[key]);
      EmitOne(doc, elems, todo, E(key, value));
      elems, todo := elems + [E(key, value)], todo - {key};
    }
  }

  method ToDriverValue(v: Any) returns (w: Any)
    ensures IsDriverValue(v, w)
    decreases v, 1
  {
    match v
    case M(m) =>
      var elems := ToBSOND(v);
      w := D(elems);
    case A(items) =>
      var res: seq<Any> := [];
      for i := 0 to |items|
        invariant |res| == i
        invariant forall j | 0 <= j < i :: IsDriverValue(items[j], res[j])
      {
        var item := ToDriverValue(items[i]);
        res := res + [item];
      }
      w := A(res);
    case Scalar(_) =>
      w := v;
    case D(_) =>
      w := v;
    case Slice(_) =>
      w := v;
  }

  method NormalizeDriverDoc(v: Any) returns (res: Result<map<string, Any>>)
    ensures res == NormalizeDoc(v)
    decreases v, 0
  {
    match v
    case D(elems) =>
      var doc: map<string, Any> := map[];
      for i := 0 to |elems|
        invariant doc == FromElems(elems[..i])
      {
        assert elems[..i + 1][..i] == elems[..i];
        var value := NormalizeDriverValue(elems[i].value);
        doc := doc[elems[i].key := value];
      }
      assert elems[..|elems|] == elems;
      res := Ok(doc);
    case M(m) =>
      var doc: map<string, Any> := map[];
      var todo := m.Keys;
      while todo != {}
        invariant todo <= m.Keys
        invariant doc == map k | k in m && k !in todo :: NormalizeValue(m[k])
        decreases todo
      {
        var key :| key in todo;
        todo := todo - {key};
        var value := NormalizeDriverValue(m[key]);
        doc := doc[key := value];
      }
      assert doc == map k | k in m :: NormalizeValue(m[k]);
      res := Ok(doc);
    case A(_) =>
      res := Err("not a document");
    case Scalar(_) =>
      res := Err("not a document");
    case Slice(_) =>
      res := Err("not a document");
  }

  method NormalizeDriverValue(v: Any) returns (w: Any)
    ensures w == NormalizeValue(v)
    decreases v, 1
  {
    match v
    case D(elems) =>
      var doc := NormalizeDriverDoc(v);
      w := M(doc.value);
    case A(items) =>
      var res := NormalizeItems(items);
      w := A(res);
    case Slice(items) =>
      var res := NormalizeItems(items);
      w := A(res);
    case M(_) =>
      w := v;
    case Scalar(_) =>
      w := v;
  }

  method NormalizeItems(items: seq<Any>) returns (res: seq<Any>)
    ensures res == seq(|items|, i requires 0 <= i < |items| => NormalizeValue(items[i]))
    decreases items, 0
  {
    res := [];
    for i := 0 to |items|
      invariant |res| == i
      invariant forall j | 0 <= j < i :: res[j] == NormalizeValue(items[j])
    {
      var item := NormalizeDriverValue(items[i]);
      res := res + [item];
    }
  }

  // ----- the round trip -----

  /** No ordered document and no plain slice is reachable through maps and arrays. */
  predicate Plain(v: Any) {
    match v
    case Scalar(_) => true
    case M(m) => forall k | k in m :: Plain(m[k])
    case A(items) => forall i | 0 <= i < |items| :: Plain(items[i])
    case _ => false
  }

  lemma {:induction false} FromDistinct(elems: seq<Elem>)
    requires NoRepeats(KeysOf(elems))
    ensures forall k :: k in FromElems(elems) <==> k in KeysOf(elems)
    ensures forall i | 0 <= i < |elems| ::
              elems[i].key in FromElems(elems) && FromElems(elems)[elems[i].key] == NormalizeValue(elems[i].value)
    decreases |elems|
  {
    if elems != [] {
      var n := |elems| - 1;
      var rest, keys := elems[..n], KeysOf(elems);
      assert KeysOf(rest) == keys[..n] && keys == keys[..n] + [elems[n].key];
      FromDistinct(rest);
      forall i | 0 <= i < n ensures elems[i].key != elems[n].key && elems[i] == rest[i] {
        assert keys[i] == elems[i].key && keys[n] == elems[n].key;
      }
    }
  }

  /** Converting to the driver and back gives the same value exactly when it holds no
      ordered document or plain slice, for every order the maps are visited in. */
  lemma {:induction false} ValueRoundTrip(v: Any, w: Any)
    requires IsDriverValue(v, w)
    ensures NormalizeValue(w) == v <==> Plain(v)
    decreases v
  {
    match v
    case M(m) =>
      DocRoundTrip(v, w.elems);
    case A(items) =>
      forall i | 0 <= i < |items| ensures NormalizeValue(w.items[i]) == items[i] <==> Plain(items[i]) {
        ValueRoundTrip(items[i], w.items[i]);
      }
    case Scalar(_) =>
    case D(_) =>
    case Slice(_) =>
  }

  /** The same for documents; no order makes the conversion back fail. */
  lemma {:induction false} DocRoundTrip(doc: Any, elems: seq<Elem>)
    requires doc.M? && IsBSOND(doc, elems)
    ensures NormalizeDoc(D(elems)) == Ok(doc.m) <==> Plain(doc)
    ensures NormalizeDoc(D(elems)).Ok?
    decreases doc, 0
  {
    FromDistinct(elems);
    var back := FromElems(elems);
    forall k | k in doc.m ensures k in back && (back[k] == doc.m[k] <==> Plain(doc.m[k])) {
      assert k in KeysOf(elems);
      var i :| 0 <= i < |elems| && KeysOf(elems)[i] == k;
      assert elems[i].key == k;
      ValueRoundTrip(doc.m[k], elems[i].value);
    }
    SameMaps(back, doc.m);
  }

  lemma SameMaps(a: map<string, Any>, b: map<string, Any>)
    requires a.Keys == b.Keys
    ensures a == b <==> forall k :: k in b ==> a[k] == b[k]
  {
  }

  // ----- what the conversions promise, one by one -----

  /** The place of a key at the start of a reply; the others come after them. */
  function Rank(key: string): nat {
    if key == "ok" then 0 else if key == "errmsg" then 1 else if key == "code" then 2 else if key == "cursor" then 3 else 4
  }

  ghost predicate Ranked(keys: seq<string>) {
    forall i, j :: 0 <= i < j < |keys| ==> Rank(keys[i]) < Rank(keys[j])
  }

  lemma {:induction false} PresentRanked(doc: map<string, Any>, keys: seq<string>)
    requires Ranked(keys)
    ensures Ranked(Present(doc, keys)) && forall k :: k in Present(doc, keys) <==> k in doc && k in keys
    decreases |keys|
  {
    if keys != [] {
      var init, last := keys[..|keys| - 1], keys[|keys| - 1];
      PresentRanked(doc, init);
      assert keys == init + [last];
      forall k | k in Present(doc, init) ensures Rank(k) < Rank(last) {
        var i :| 0 <= i < |init| && init[i] == k;
        assert keys[i] == k;
      }
    }
  }

  lemma LeadingKeys(doc: map<string, Any>)
    ensures Ranked(Present(doc, LEADING))
    ensures forall k :: k in Present(doc, LEADING) <==> k in doc && Rank(k) < 4
  {
    hide Present;
    assert Rank(LEADING[0]) == 0 && Rank(LEADING[1]) == 1 && Rank(LEADING[2]) == 2 && Rank(LEADING[3]) == 3;
    PresentRanked(doc, LEADING);
    assert forall k :: k in LEADING <==> Rank(k) < 4;
  }

  /** `ok`, `errmsg`, `code` and `cursor` come first, in this order. */
  lemma RepliesStartWithStatus(doc: Any, elems: seq<Elem>, i: nat, j: nat)
    requires doc.M? && IsBSOND(doc, elems) && i < j < |elems|
    ensures Rank(elems[j].key) < 4 ==> Rank(elems[i].key) < Rank(elems[j].key)
  {
    var keys, leading := KeysOf(elems), Present(doc.m, LEADING);
    LeadingKeys(doc.m);
    assert keys[i] == elems[i].key && keys[j] == elems[j].key;
    assert keys[j] in keys;
    if Rank(keys[j]) < 4 {
      assert keys[j] in leading;
      var n :| 0 <= n < |leading| && leading[n] == keys[j];
      assert keys[n] == leading[n];
      assert n == j;
      assert keys[i] == leading[i];
    }
  }

  /** Of elements with one key the last counts, with its value converted. */
  lemma {:induction false} LastElementCounts(elems: seq<Elem>, i: nat)
    requires i < |elems| && forall j :: i < j < |elems| ==> elems[j].key != elems[i].key
    ensures NormalizeDoc(D(elems)).Ok? && elems[i].key in NormalizeDoc(D(elems)).value
    ensures NormalizeDoc(D(elems)).value[elems[i].key] == NormalizeValue(elems[i].value)
    decreases |elems|
  {
    var n := |elems| - 1;
    if i < n {
      assert elems[..n][i] == elems[i];
      LastElementCounts(elems[..n], i);
    }
  }

  /** Arrays and plain slices become arrays item by item; a map inside a value is kept
      unvisited; other values are kept. */
  lemma ConvertedKinds(items: seq<Any>, m: map<string, Any>, v: Value, i: nat)
    requires i < |items|
    ensures NormalizeValue(A(items)).A? && NormalizeValue(Slice(items)) == NormalizeValue(A(items))
    ensures |NormalizeValue(A(items)).items| == |items|
    ensures NormalizeValue(A(items)).items[i] == NormalizeValue(items[i])
    ensures NormalizeValue(M(m)) == M(m) && NormalizeValue(Scalar(v)) == Scalar(v)
    ensures NormalizeDoc(A(items)).Err? && NormalizeDoc(Slice(items)).Err? && NormalizeDoc(Scalar(v)).Err?
  {
  }

  /** At the top the values of a map are converted. */
  lemma TopMapIsVisited(m: map<string, Any>, k: string)
    requires k in m
    ensures NormalizeDoc(M(m)).Ok? && NormalizeDoc(M(m)).value.Keys == m.Keys
    ensures NormalizeDoc(M(m)).value[k] == NormalizeValue(m[k])
  {
  }
}
