/** What a dotted path finds in documents and in arrays of documents, stated without the
    walk along its parts (internal/mql/mql.go:586-627). */
module PathLaws {
  import opened Bson
  import opened FilterLaws
  import opened Matching
  import opened Paths

  function Dotted(f: string, rest: string): string {
    f + "." + rest
  }

  lemma {:induction false} SplitDotted(f: string, rest: string)
    requires '.' !in f
    ensures Split(Dotted(f, rest)) == [f] + Split(rest)
    decreases |f|
  {
    var path := Dotted(f, rest);
    if f == "" {
      assert path[1..] == rest;
    } else {
      assert path[1..] == Dotted(f[1..], rest) && '.' !in f[1..];
      SplitDotted(f[1..], rest);
      assert Split(path[1..])[0] == f[1..] && f == [f[0]] + f[1..];
    }
  }

  /** A field whose name is the whole path is found first. */
  lemma WholePathFirst(doc: Document, path: string)
    requires path in doc
    ensures ValueByPath(doc, path) == Found(doc[path], true)
  {
  }

  lemma DottedParts(doc: Document, f: string, rest: string)
    requires '.' !in f && Dotted(f, rest) !in doc
    ensures ValueByPath(doc, Dotted(f, rest)) ==
            if f in doc then FoundAmong(Resolve(doc[f], Split(rest))) else Found(Null, false)
  {
    SplitDotted(f, rest);
    ResolveStep(doc, f, Split(rest));
  }

  lemma ResolveStep(doc: Document, f: string, rest: seq<string>)
    ensures Resolve(Map(doc), [f] + rest) == if f in doc then Resolve(doc[f], rest) else []
  {
    var parts := [f] + rest;
    assert parts[1..] == rest;
    assert Resolve(Map(doc), parts) == ResolveAll(Children(Map(doc), f), rest);
    if f in doc {
      OneResolved(doc[f], rest);
    }
  }

  lemma OneResolved(v: Value, parts: seq<string>)
    ensures ResolveAll([v], parts) == Resolve(v, parts)
  {
    assert [v][1..] == [];
  }

  /** A path into a missing field, or into anything but a document or an array, finds
      nothing. */
  lemma NothingBehind(doc: Document, f: string, rest: string)
    requires '.' !in f && Dotted(f, rest) !in doc
    requires f in doc ==> !doc[f].Map? && !doc[f].Array?
    ensures ValueByPath(doc, Dotted(f, rest)) == Found(Null, false)
  {
    DottedParts(doc, f, rest);
    if f in doc {
      assert Children(doc[f], Split(rest)[0]) == [];
    }
  }

  /** A path into a document is the rest of the path in that document. */
  lemma NestedPath(doc: Document, f: string, rest: string, m: Document)
    requires '.' !in f && Dotted(f, rest) !in doc
    requires f in doc && doc[f] == Map(m) && ('.' in rest ==> rest !in m)
    ensures ValueByPath(doc, Dotted(f, rest)) == ValueByPath(m, rest)
  {
    DottedParts(doc, f, rest);
    if rest in m {
      SplitWithoutDot(rest);
      var parts := [rest];
      assert Children(Map(m), rest) == [m[rest]] && parts[1..] == [];
      OneResolved(m[rest], []);
    }
  }

  // ----- arrays of documents -----

  /** The items that are documents with the field, by index. */
  ghost predicate ItemsWith(items: seq<Value>, g: string, at: seq<nat>) {
    && (forall i, j :: 0 <= i < j < |at| ==> at[i] < at[j])
    && forall n: nat :: n in at <==> n < |items| && HasField(items[n], g)
  }

  function FieldsAt(items: seq<Value>, g: string, at: seq<nat>): seq<Value>
    requires forall n :: n in at ==> n < |items| && HasField(items[n], g)
  {
    seq(|at|, i requires 0 <= i < |at| => assert at[i] in at && HasField(items[at[i]], g); items[at[i]].m[g])
  }

  predicate HasField(item: Value, g: string) {
    item.Map? && g in item.m
  }

  lemma MoreItems(items: seq<Value>, item: Value, g: string, at: seq<nat>)
    requires ItemsWith(items, g, at)
    ensures ItemsWith(items + [item], g, if HasField(item, g) then at + [|items|] else at)
  {
    var all, more := items + [item], if HasField(item, g) then at + [|items|] else at;
    assert forall i :: 0 <= i < |at| ==> at[i] in at;
    forall n: nat ensures n in more <==> n < |all| && HasField(all[n], g) {
      assert n in more <==> n in at || (n == |items| && HasField(item, g));
      assert n < |items| ==> all[n] == items[n];
    }
  }

  lemma MoreFields(items: seq<Value>, item: Value, g: string, at: seq<nat>)
    requires ItemsWith(items, g, at) && ItemsWith(items + [item], g, if HasField(item, g) then at + [|items|] else at)
    ensures FieldsAt(items + [item], g, if HasField(item, g) then at + [|items|] else at) ==
            FieldsAt(items, g, at) + ItemChild(item, g)
  {
    var all, more := items + [item], if HasField(item, g) then at + [|items|] else at;
    forall i | 0 <= i < |at| ensures FieldsAt(all, g, more)[i] == FieldsAt(items, g, at)[i] {
      assert at[i] in at && all[at[i]] == items[at[i]];
    }
  }

  lemma {:induction false} GatheredFields(items: seq<Value>, g: string) returns (at: seq<nat>)
    ensures ItemsWith(items, g, at) && ItemChildren(items, g) == FieldsAt(items, g, at)
    decreases |items|
  {
    hide ItemsWith, FieldsAt, ItemChildren;
    if items == [] {
      at := NoItems(items, g);
    } else {
      var init, item := items[..|items| - 1], items[|items| - 1];
      var before := GatheredFields(init, g);
      assert init + [item] == items;
      ItemChildrenAppend(init, item, g);
      MoreItems(init, item, g, before);
      MoreFields(init, item, g, before);
      at := if HasField(item, g) then before + [|init|] else before;
    }
  }

  lemma NoItems(items: seq<Value>, g: string) returns (at: seq<nat>)
    requires items == []
    ensures ItemsWith(items, g, at) && ItemChildren(items, g) == FieldsAt(items, g, at)
  {
    at := [];
  }

  lemma {:induction false} ItemChildrenAppend(items: seq<Value>, item: Value, g: string)
    ensures ItemChildren(items + [item], g) == ItemChildren(items, g) + ItemChild(item, g)
    decreases |items|
  {
    if items == [] {
      assert [item][1..] == [];
    } else {
      assert (items + [item])[1..] == items[1..] + [item];
      ItemChildrenAppend(items[1..], item, g);
    }
  }

  lemma {:induction false} AllResolved(vs: seq<Value>)
    ensures ResolveAll(vs, []) == vs
  {
    if vs != [] {
      AllResolved(vs[1..]);
    }
  }

  /** A path into an array finds the fields of its items, in order: nothing when no item
      has the field, the value itself when one has it, and otherwise an array. */
  lemma ArrayPath(doc: Document, f: string, g: string, items: seq<Value>) returns (at: seq<nat>)
    requires '.' !in f && '.' !in g && Dotted(f, g) !in doc && f in doc && doc[f] == Array(items)
    ensures ItemsWith(items, g, at)
    ensures var values := FieldsAt(items, g, at);
            ValueByPath(doc, Dotted(f, g)) ==
            if values == [] then Found(Null, false)
            else if |values| == 1 then Found(values[0], true) else Found(Array(values), true)
  {
    DottedParts(doc, f, g);
    SplitWithoutDot(g);
    at := GatheredFields(items, g);
    var parts := [g];
    assert parts[1..] == [];
    AllResolved(ItemChildren(items, g));
  }

  /** When at least two items have the field, a filter on the path asks whether the field
      of some item equals the value, or the array of them all does. */
  lemma FilterOnItems(doc: Document, f: string, g: string, items: seq<Value>, v: Value) returns (at: seq<nat>)
    requires '.' !in f && '.' !in g && Dotted(f, g) !in doc && f in doc && doc[f] == Array(items)
    requires IsPath(Dotted(f, g)) && !v.Map?
    ensures ItemsWith(items, g, at)
    ensures |at| >= 2 ==>
              (Matches(doc, Map(map[Dotted(f, g) := v])) <==>
                (exists n :: n in at && Equal(items[n].m[g], v)) || Equal(Array(FieldsAt(items, g, at)), v))
    ensures |at| == 0 ==> !Matches(doc, Map(map[Dotted(f, g) := v]))
  {
    at := ArrayPath(doc, f, g, items);
    PlainCondition(doc, Dotted(f, g), v);
    var values := FieldsAt(items, g, at);
    if |at| >= 2 {
      if n :| n in at && Equal(items[n].m[g], v) {
        var i :| 0 <= i < |at| && at[i] == n;
        assert values[i] in values;
      }
      if x :| x in values && Equal(x, v) {
        var i :| 0 <= i < |values| && values[i] == x;
        assert at[i] in at;
      }
    }
  }
}
