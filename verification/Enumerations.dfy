/** Orders in which a map iteration can visit a set of keys. */
module Enumerations {

  ghost predicate NoRepeats<T>(s: seq<T>) {
    forall i, j :: 0 <= i < j < |s| ==> s[i] != s[j]
  }

  /** `order` lists each of the keys once. */
  ghost predicate Enumerates(order: seq<string>, keys: set<string>) {
    && (forall k :: k in order <==> k in keys)
    && NoRepeats(order)
  }

  lemma EnumerateMore(order: seq<string>, keys: set<string>, key: string)
    requires Enumerates(order, keys) && key !in keys
    ensures Enumerates(order + [key], keys + {key})
  {
    forall k ensures k in order + [key] <==> k in keys + {key} {
      assert k in order + [key] <==> k in order || k == key;
    }
    assert forall i :: 0 <= i < |order| ==> order[i] in order;
  }

  /** One more key of `all` has been visited. */
  lemma EnumerateNext(order: seq<string>, all: set<string>, todo: set<string>, key: string)
    requires Enumerates(order, all - todo) && key in todo && key in all
    ensures Enumerates(order + [key], all - (todo - {key}))
  {
    EnumerateMore(order, all - todo, key);
    assert all - todo + {key} == all - (todo - {key});
  }

  lemma {:induction false} EnumerationCounts(order: seq<string>, x: string)
    requires NoRepeats(order)
    ensures multiset(order)[x] == if x in order then 1 else 0
    decreases |order|
  {
    if order != [] {
      var rest := order[1..];
      EnumerationCounts(rest, x);
      assert order == [order[0]] + rest;
      assert order[0] !in rest;
    }
  }

  /** Two orders of the same keys are permutations of each other. */
  lemma EnumerationsPermute(order: seq<string>, other: seq<string>, keys: set<string>)
    requires Enumerates(order, keys) && Enumerates(other, keys)
    ensures multiset(order) == multiset(other)
  {
    forall x ensures multiset(order)[x] == multiset(other)[x] {
      EnumerationCounts(order, x);
      EnumerationCounts(other, x);
    }
  }

  lemma {:induction false} DistinctCount<T(!new)>(s: seq<T>)
    requires NoRepeats(s)
    ensures |set x | x in s| == |s|
    decreases |s|
  {
    if s != [] {
      var rest := s[1..];
      DistinctCount(rest);
      assert s == [s[0]] + rest;
      assert s[0] !in rest;
      assert (set x | x in s) == (set x | x in rest) + {s[0]};
    }
  }
}
