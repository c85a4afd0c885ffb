/** Dotted field paths (`valueByPath` in internal/mql/mql.go).

    `Resolve` says what a path means: the values at its end, depth first, where an
    array contributes the fields of its document elements.  The engine finds them
    with a breadth-first frontier; `ValueByPathLoop` proves the two agree. */
module Paths {
  import opened Bson

  /** `strings.Split(path, ".")`. */
  function Split(path: string): (parts: seq<string>)
    ensures |parts| > 0
  {
    if path == "" then [""]
    else if path[0] == '.' then [""] + Split(path[1..])
    else
      var rest := Split(path[1..]);
      [[path[0]] + rest[0]] + rest[1..]
  }

  function Join(parts: seq<string>): string {
    if parts == [] then ""
    else if |parts| == 1 then parts[0]
    else parts[0] + "." + Join(parts[1..])
  }

  /** The parts contain no dot and joining them gives the path back. */
  lemma {:induction false} SplitIsInverseOfJoin(path: string)
    ensures Join(Split(path)) == path
    ensures forall i :: 0 <= i < |Split(path)| ==> '.' !in Split(path)[i]
  {
    if path != "" {
      SplitIsInverseOfJoin(path[1..]);
      var rest := Split(path[1..]);
      assert path == [path[0]] + path[1..];
      if path[0] == '.' {
        assert ([""] + rest)[1..] == rest;
      } else {
        var parts := [[path[0]] + rest[0]] + rest[1..];
        assert parts[1..] == rest[1..];
        assert |rest| == 1 || Join(rest) == rest[0] + "." + Join(rest[1..]);
      }
    }
  }

  // ----- meaning -----

  /** The values one path part leads to from `v`. */
  function Children(v: Value, part: string): seq<Value> {
    match v
    case Map(m) => if part in m then [m[part]] else []
    case Array(a) => ItemChildren(a, part)
    case _ => []
  }

  function ItemChildren(items: seq<Value>, part: string): seq<Value> {
    if items == [] then []
    else ItemChild(items[0], part) + ItemChildren(items[1..], part)
  }

  function ItemChild(item: Value, part: string): seq<Value> {
    if item.Map? && part in item.m then [item.m[part]] else []
  }

  function Resolve(v: Value, parts: seq<string>): seq<Value>
    decreases |parts|, 0
  {
    if parts == [] then [v] else ResolveAll(Children(v, parts[0]), parts[1..])
  }

  function ResolveAll(vs: seq<Value>, parts: seq<string>): seq<Value>
    decreases |parts|, 1 + |vs|
  {
    if vs == [] then [] else Resolve(vs[0], parts) + ResolveAll(vs[1..], parts)
  }

  datatype Found = Found(value: Value, exists_: bool)

  function FoundAmong(values: seq<Value>): Found {
    if values == [] then Found(Null, false)
    else if |values| == 1 then Found(values[0], true)
    else Found(Array(values), true)
  }

  /** A field with the whole path as its name wins over the dotted reading. */
  function ValueByPath(doc: Document, path: string): Found {
    if path in doc then Found(doc[path], true)
    else FoundAmong(Resolve(Map(doc), Split(path)))
  }

  lemma {:induction false} SplitWithoutDot(path: string)
    requires '.' !in path
    ensures Split(path) == [path]
  {
    if path != "" {
      SplitWithoutDot(path[1..]);
      assert path == [path[0]] + path[1..];
    }
  }

  /** A path without dots is a plain field name. */
  lemma PlainPath(doc: Document, path: string)
    requires '.' !in path
    ensures ValueByPath(doc, path) == Found(Lookup(doc, path), path in doc)
  {
    SplitWithoutDot(path);
    var parts := [path];
    assert parts[1..] == [];
    if path !in doc {
      assert Children(Map(doc), parts[0]) == [];
      assert Resolve(Map(doc), parts) == ResolveAll([], parts[1..]) == [];
    }
  }

  // ----- breadth-first evaluation -----

  function ChildrenAll(vs: seq<Value>, part: string): seq<Value> {
    if vs == [] then [] else ChildrenAll(vs[..|vs| - 1], part) + Children(vs[|vs| - 1], part)
  }

  lemma Associative<T>(a: seq<T>, b: seq<T>, c: seq<T>)
    ensures a + (b + c) == a + b + c
  {
  }

  lemma {:induction false} ResolveAllAppend(us: seq<Value>, vs: seq<Value>, parts: seq<string>)
    ensures ResolveAll(us + vs, parts) == ResolveAll(us, parts) + ResolveAll(vs, parts)
  {
    if us == [] {
      assert us + vs == vs;
    } else {
      ResolveAllAppend(us[1..], vs, parts);
      assert (us + vs)[1..] == us[1..] + vs && (us + vs)[0] == us[0];
      Associative(Resolve(us[0], parts), ResolveAll(us[1..], parts), ResolveAll(vs, parts));
    }
  }

  /** One level of the frontier. */
  lemma {:induction false} FrontierStep(vs: seq<Value>, part: string, rest: seq<string>)
    ensures ResolveAll(vs, [part] + rest) == ResolveAll(ChildrenAll(vs, part), rest)
  {
    if vs != [] {
      var n := |vs| - 1;
      FrontierStep(vs[..n], part, rest);
      ResolveAllAppend(vs[..n], [vs[n]], [part] + rest);
      ResolveAllAppend(ChildrenAll(vs[..n], part), Children(vs[n], part), rest);
      assert vs == vs[..n] + [vs[n]];
      assert ([part] + rest)[1..] == rest;
    }
  }

  lemma {:induction false} ResolveEnd(vs: seq<Value>)
    ensures ResolveAll(vs, []) == vs
  {
    if vs != [] {
      ResolveEnd(vs[1..]);
    }
  }

  lemma {:induction false} ItemChildrenAppend(items: seq<Value>, item: Value, part: string)
    ensures ItemChildren(items + [item], part) == ItemChildren(items, part) + ItemChild(item, part)
  {
    if items == [] {
      assert items + [item] == [item];
      assert ItemChildren([item][1..], part) == [];
    } else {
      ItemChildrenAppend(items[1..], item, part);
      assert (items + [item])[1..] == items[1..] + [item] && (items + [item])[0] == items[0];
      Associative(ItemChild(items[0], part), ItemChildren(items[1..], part), ItemChild(item, part));
    }
  }

  method ChildrenLoop(v: Value, part: string) returns (next: seq<Value>)
    ensures next == Children(v, part)
  {
    next := [];
    match v
    case Map(m) =>
      if part in m {
        next := next + [m[part]];
      }
    case Array(items) =>
      for i := 0 to |items|
        invariant next == ItemChildren(items[..i], part)
      {
        ItemChildrenAppend(items[..i], items[i], part);
        assert items[..i + 1] == items[..i] + [items[i]];
        if items[i].Map? && part in items[i].m {
          next := next + [items[i].m[part]];
        }
      }
      assert items[..|items|] == items;
    case _ =>
  }

  /** The breadth-first walk returns what the depth-first reading of the path says,
      in the same order, and stops early only when nothing is left. */
  method ValueByPathLoop(doc: Document, path: string) returns (found: Found)
    ensures found == ValueByPath(doc, path)
  {
    if path in doc {
      return Found(doc[path], true);
    }
    var parts := Split(path);
    var values := [Map(doc)];
    assert ResolveAll(values, parts) == Resolve(Map(doc), parts) + ResolveAll([], parts);
    for i := 0 to |parts|
      invariant |values| > 0
      invariant ResolveAll(values, parts[i..]) == Resolve(Map(doc), parts)
    {
      var next := [];
      for j := 0 to |values|
        invariant next == ChildrenAll(values[..j], parts[i])
      {
        var children := ChildrenLoop(values[j], parts[i]);
        next := next + children;
        assert values[..j + 1][..j] == values[..j];
      }
      assert values[..|values|] == values;
      assert parts[i..] == [parts[i]] + parts[i + 1..];
      FrontierStep(values, parts[i], parts[i + 1..]);
      values := next;
      if |values| == 0 {
        return Found(Null, false);
      }
    }
    ResolveEnd(values);
    if |values| == 1 {
      return Found(values[0], true);
    }
    return Found(Array(values), true);
  }
}
