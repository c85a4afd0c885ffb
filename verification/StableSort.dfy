/** Stable sorting as `sort.SliceStable` does it, and the algebra the engine needs:
    what a stable sort is, that it is unique, and how it commutes with filtering,
    appending and truncation.

    `Insert` is the inner loop of Go's insertion sort: the new element moves left
    past every element it is strictly less than. */
module StableSort {

  type Less<!T> = (T, T) -> bool

  function Insert<T>(less: Less<T>, t: seq<T>, y: T): seq<T> {
    if t == [] then [y]
    else if less(y, t[|t| - 1]) then Insert(less, t[..|t| - 1], y) + [t[|t| - 1]]
    else t + [y]
  }

  function InsertAll<T>(less: Less<T>, t: seq<T>, ys: seq<T>): seq<T>
    decreases |ys|
  {
    if ys == [] then t else InsertAll(less, Insert(less, t, ys[0]), ys[1..])
  }

  function Sort<T>(less: Less<T>, s: seq<T>): seq<T> {
    InsertAll(less, [], s)
  }

  function Flatten<T>(parts: seq<seq<T>>): seq<T> {
    if parts == [] then [] else Flatten(parts[..|parts| - 1]) + parts[|parts| - 1]
  }

  function Filter<T>(p: T -> bool, s: seq<T>): seq<T> {
    if s == [] then []
    else if p(s[0]) then [s[0]] + Filter(p, s[1..])
    else Filter(p, s[1..])
  }

  function MapSeq<A, B>(f: A -> B, s: seq<A>): seq<B> {
    seq(|s|, i requires 0 <= i < |s| => f(s[i]))
  }

  /** The first `n` elements, or all of them. */
  function Take<T>(n: nat, s: seq<T>): seq<T> {
    if n <= |s| then s[..n] else s
  }

  /** The last `n` elements, or all of them. */
  function Last<T>(n: nat, s: seq<T>): seq<T> {
    if n <= |s| then s[|s| - n..] else s
  }

  // ----- specification -----

  /** `less` is a strict weak order on the elements that satisfy `dom`. */
  ghost predicate WeakOrder<T(!new)>(less: Less<T>, dom: T -> bool) {
    && (forall x, y :: dom(x) && dom(y) && less(x, y) ==> !less(y, x))
    && (forall x, y, z :: dom(x) && dom(y) && dom(z) && !less(y, x) && !less(z, y) ==> !less(z, x))
  }

  ghost predicate All<T(!new)>(dom: T -> bool, s: seq<T>) {
    forall x :: x in s ==> dom(x)
  }

  ghost predicate Ordered<T>(less: Less<T>, s: seq<T>) {
    forall i, j :: 0 <= i < j < |s| ==> !less(s[j], s[i])
  }

  /** The elements of `s` that tie with `c`, in the order they have in `s`. */
  ghost function Ties<T>(less: Less<T>, c: T, s: seq<T>): seq<T> {
    Filter(TiesWith(less, c), s)
  }

  function TiesWith<T>(less: Less<T>, c: T): T -> bool {
    x => !less(x, c) && !less(c, x)
  }

  /** `out` is a stable sort of `s`: ordered, a permutation, ties in input order. */
  ghost predicate IsStableSort<T(!new)>(less: Less<T>, s: seq<T>, out: seq<T>) {
    && Ordered(less, out)
    && multiset(out) == multiset(s)
    && forall c :: c in s ==> Ties(less, c, out) == Ties(less, c, s)
  }

  // ----- filters -----

  lemma {:induction false} FilterAppend<T(!new)>(p: T -> bool, s: seq<T>, t: seq<T>)
    ensures Filter(p, s + t) == Filter(p, s) + Filter(p, t)
  {
    if s == [] {
      assert s + t == t;
    } else {
      FilterAppend(p, s[1..], t);
      assert (s + t)[1..] == s[1..] + t;
    }
  }

  lemma {:induction false} FilterMembers<T(!new)>(p: T -> bool, s: seq<T>)
    ensures forall x :: x in Filter(p, s) <==> x in s && p(x)
    ensures |Filter(p, s)| <= |s|
  {
    if s != [] {
      FilterMembers(p, s[1..]);
      assert s == [s[0]] + s[1..];
    }
  }

  lemma {:induction false} FilterCommutes<T(!new)>(p: T -> bool, q: T -> bool, s: seq<T>)
    ensures Filter(p, Filter(q, s)) == Filter(q, Filter(p, s))
  {
    if s != [] {
      FilterCommutes(p, q, s[1..]);
    }
  }

  lemma {:induction false} FilterAll<T(!new)>(p: T -> bool, s: seq<T>)
    requires forall x :: x in s ==> p(x)
    ensures Filter(p, s) == s
  {
    if s != [] {
      FilterAll(p, s[1..]);
    }
  }

  lemma {:induction false} FilterNone<T(!new)>(p: T -> bool, s: seq<T>)
    requires forall x :: x in s ==> !p(x)
    ensures Filter(p, s) == []
  {
    if s != [] {
      FilterNone(p, s[1..]);
    }
  }

  lemma RemoveOne<A(!new)>(xs: seq<A>, ys: seq<A>, i: nat)
    requires multiset(xs) == multiset(ys)
    requires |xs| > 0 && i < |ys| && ys[i] == xs[0]
    ensures multiset(xs[1..]) == multiset(ys[..i] + ys[i + 1..])
  {
    assert xs == [xs[0]] + xs[1..];
    assert ys == ys[..i] + [ys[i]] + ys[i + 1..];
    assert multiset(xs[1..]) == multiset(xs) - multiset{xs[0]};
    assert multiset(ys[..i] + ys[i + 1..]) == multiset(ys) - multiset{xs[0]};
  }

  lemma MapExtract<A(!new), B>(f: A -> B, u: seq<A>, x: A, v: seq<A>)
    ensures multiset(MapSeq(f, u + [x] + v)) == multiset(MapSeq(f, u + v)) + multiset{f(x)}
  {
    assert MapSeq(f, u + [x] + v) == MapSeq(f, u) + [f(x)] + MapSeq(f, v);
    assert MapSeq(f, u + v) == MapSeq(f, u) + MapSeq(f, v);
  }

  lemma Around<T>(s: seq<T>, i: nat)
    requires i < |s|
    ensures s[..i] + [s[i]] + s[i + 1..] == s
  {
  }

  lemma {:induction false} MapPermutes<A(!new), B>(f: A -> B, xs: seq<A>, ys: seq<A>)
    requires multiset(xs) == multiset(ys)
    ensures multiset(MapSeq(f, xs)) == multiset(MapSeq(f, ys))
    decreases |xs|
  {
    SameMembers(xs, ys);
    if xs != [] {
      var x, rest := xs[0], xs[1..];
      assert x in ys;
      var i :| 0 <= i < |ys| && ys[i] == x;
      var u, v := ys[..i], ys[i + 1..];
      RemoveOne(xs, ys, i);
      Around(ys, i);
      Around(xs, 0);
      MapPermutes(f, rest, u + v);
      MapExtract(f, u, x, v);
      MapExtract(f, [], x, rest);
      assert [] + rest == rest;
    }
  }

  // ----- insertion -----

  lemma {:induction false} InsertMultiset<T(!new)>(less: Less<T>, t: seq<T>, y: T)
    ensures multiset(Insert(less, t, y)) == multiset(t) + multiset{y}
    ensures |Insert(less, t, y)| == |t| + 1
  {
    if t != [] && less(y, t[|t| - 1]) {
      InsertMultiset(less, t[..|t| - 1], y);
      assert t == t[..|t| - 1] + [t[|t| - 1]];
    }
  }

  lemma {:induction false} InsertOrdered<T(!new)>(less: Less<T>, dom: T -> bool, t: seq<T>, y: T)
    requires WeakOrder(less, dom) && All(dom, t) && dom(y) && Ordered(less, t)
    ensures Ordered(less, Insert(less, t, y)) && All(dom, Insert(less, t, y))
  {
    var n := |t| - 1;
    if t != [] {
      if less(y, t[n]) {
        InsertOrdered(less, dom, t[..n], y);
        InsertMultiset(less, t[..n], y);
        var u := Insert(less, t[..n], y);
        forall i | 0 <= i < |u| ensures !less(t[n], u[i]) {
          assert u[i] in multiset(u);
          assert u[i] in t[..n] || u[i] == y;
        }
      } else {
        forall i | 0 <= i < |t| ensures !less(y, t[i]) {
          assert i < n ==> !less(t[n], t[i]);
        }
      }
    }
  }

  /** Among the elements that tie with `c`, insertion is appending. */
  lemma {:induction false} InsertTies<T(!new)>(less: Less<T>, dom: T -> bool, t: seq<T>, y: T, c: T)
    requires WeakOrder(less, dom) && All(dom, t) && dom(y) && dom(c) && Ordered(less, t)
    ensures Ties(less, c, Insert(less, t, y)) == Ties(less, c, t + [y])
  {
    var p := TiesWith(less, c);
    var n := |t| - 1;
    if t == [] {
      assert t + [y] == [y];
    } else if less(y, t[n]) {
      InsertTies(less, dom, t[..n], y, c);
      assert t == t[..n] + [t[n]];
      FilterAppend(p, Insert(less, t[..n], y), [t[n]]);
      FilterAppend(p, t[..n], [y]);
      FilterAppend(p, t[..n], [t[n]]);
      FilterAppend(p, t, [y]);
      assert !(p(y) && p(t[n]));
    }
  }

  lemma {:induction false} InsertAllAppend<T(!new)>(less: Less<T>, t: seq<T>, xs: seq<T>, ys: seq<T>)
    ensures InsertAll(less, t, xs + ys) == InsertAll(less, InsertAll(less, t, xs), ys)
    decreases |xs|
  {
    if xs == [] {
      assert xs + ys == ys;
    } else {
      assert (xs + ys)[1..] == xs[1..] + ys;
      InsertAllAppend(less, Insert(less, t, xs[0]), xs[1..], ys);
    }
  }

  lemma {:induction false} InsertAllOrdered<T(!new)>(less: Less<T>, dom: T -> bool, t: seq<T>, ys: seq<T>)
    requires WeakOrder(less, dom) && All(dom, t) && All(dom, ys) && Ordered(less, t)
    ensures Ordered(less, InsertAll(less, t, ys)) && All(dom, InsertAll(less, t, ys))
    decreases |ys|
  {
    if ys != [] {
      InsertOrdered(less, dom, t, ys[0]);
      InsertAllOrdered(less, dom, Insert(less, t, ys[0]), ys[1..]);
    }
  }

  lemma {:induction false} InsertAllTies<T(!new)>(less: Less<T>, dom: T -> bool, t: seq<T>, ys: seq<T>, c: T)
    requires WeakOrder(less, dom) && All(dom, t) && All(dom, ys) && dom(c) && Ordered(less, t)
    ensures Ties(less, c, InsertAll(less, t, ys)) == Ties(less, c, t + ys)
    decreases |ys|
  {
    hide Insert, Ordered;
    if ys == [] {
      assert t + ys == t;
    } else {
      var u := Insert(less, t, ys[0]);
      assert t + ys == t + [ys[0]] + ys[1..];
      InsertOrdered(less, dom, t, ys[0]);
      InsertAllTies(less, dom, u, ys[1..], c);
      InsertTies(less, dom, t, ys[0], c);
      FilterAppend(TiesWith(less, c), u, ys[1..]);
      FilterAppend(TiesWith(less, c), t + [ys[0]], ys[1..]);
    }
  }

  // ----- the stable sort -----

  /** Holds without any hypothesis on `less`. */
  lemma {:induction false} SortPermutes<T(!new)>(less: Less<T>, t: seq<T>, ys: seq<T>)
    ensures multiset(InsertAll(less, t, ys)) == multiset(t) + multiset(ys)
    ensures |InsertAll(less, t, ys)| == |t| + |ys|
    decreases |ys|
  {
    if ys != [] {
      InsertMultiset(less, t, ys[0]);
      SortPermutes(less, Insert(less, t, ys[0]), ys[1..]);
      assert ys == [ys[0]] + ys[1..];
    }
  }

  lemma SortIsStable<T(!new)>(less: Less<T>, dom: T -> bool, s: seq<T>)
    requires WeakOrder(less, dom) && All(dom, s)
    ensures IsStableSort(less, s, Sort(less, s))
    ensures All(dom, Sort(less, s))
  {
    InsertAllOrdered(less, dom, [], s);
    SortPermutes(less, [], s);
    forall c | c in s ensures Ties(less, c, Sort(less, s)) == Ties(less, c, s) {
      InsertAllTies(less, dom, [], s, c);
      assert [] + s == s;
    }
  }

  lemma SameMembers<T(!new)>(s: seq<T>, t: seq<T>)
    requires multiset(s) == multiset(t)
    ensures forall x :: x in s <==> x in t
    ensures |s| == |t|
  {
    forall x ensures x in s <==> x in t {
      assert x in s <==> x in multiset(s);
      assert x in t <==> x in multiset(t);
    }
    assert |s| == |multiset(s)| && |t| == |multiset(t)|;
  }

  /** A stable sort is unique, so any stable sorting routine returns `Sort(less, s)`. */
  lemma StableSortUnique<T(!new)>(less: Less<T>, dom: T -> bool, s: seq<T>, out: seq<T>)
    requires WeakOrder(less, dom) && All(dom, s)
    requires IsStableSort(less, s, out)
    ensures out == Sort(less, s)
  {
    SortIsStable(less, dom, s);
    var a := Sort(less, s);
    SameMembers(a, s);
    SameMembers(out, s);
    OrderedTiesUnique(less, dom, a, out);
  }

  lemma {:induction false} OrderedTiesUnique<T(!new)>(less: Less<T>, dom: T -> bool, a: seq<T>, b: seq<T>)
    requires WeakOrder(less, dom) && All(dom, a) && All(dom, b)
    requires Ordered(less, a) && Ordered(less, b) && |a| == |b|
    requires forall c :: c in a || c in b ==> Ties(less, c, a) == Ties(less, c, b)
    ensures a == b
    decreases |a|
  {
    if a != [] {
      assert Ties(less, a[0], a)[0] == a[0];
      var p := TiesWith(less, a[0]);
      FilterMembers(p, b);
      assert a[0] in Filter(p, b);
      assert !less(a[0], b[0]);
      assert Ties(less, b[0], b)[0] == b[0];
      FilterMembers(TiesWith(less, b[0]), a);
      assert b[0] in a;
      assert !less(b[0], a[0]);
      assert a[0] == b[0];
      forall c | c in a[1..] || c in b[1..] ensures Ties(less, c, a[1..]) == Ties(less, c, b[1..]) {
        assert c in a || c in b;
        var p := TiesWith(less, c);
        assert Filter(p, a) == Filter(p, b);
        assert p(a[0]) ==> Filter(p, a)[1..] == Filter(p, a[1..]) && Filter(p, b)[1..] == Filter(p, b[1..]);
      }
      OrderedTiesUnique(less, dom, a[1..], b[1..]);
      assert a == [a[0]] + a[1..] && b == [b[0]] + b[1..];
    }
  }

  lemma {:induction false} SortOrdered<T(!new)>(less: Less<T>, t: seq<T>, ys: seq<T>)
    requires Ordered(less, t + ys)
    ensures InsertAll(less, t, ys) == t + ys
    decreases |ys|
  {
    if ys == [] {
      assert t + ys == t;
    } else {
      assert forall i :: 0 <= i < |t| ==> t[i] == (t + ys)[i];
      assert ys[0] == (t + ys)[|t|];
      assert Insert(less, t, ys[0]) == t + [ys[0]];
      assert t + [ys[0]] + ys[1..] == t + ys;
      SortOrdered(less, t + [ys[0]], ys[1..]);
    }
  }

  /** Filtering after the sort is sorting after the filter. */
  lemma FilterOfSort<T(!new)>(less: Less<T>, dom: T -> bool, p: T -> bool, s: seq<T>)
    requires WeakOrder(less, dom) && All(dom, s)
    ensures Filter(p, Sort(less, s)) == Sort(less, Filter(p, s))
  {
    SortIsStable(less, dom, s);
    var a := Sort(less, s);
    FilterOrdered(less, p, a);
    FilterMembers(p, s);
    FilterMultiset(p, s, a);
    forall c | c in Filter(p, s)
      ensures Ties(less, c, Filter(p, a)) == Ties(less, c, Filter(p, s))
    {
      FilterCommutes(TiesWith(less, c), p, a);
      FilterCommutes(TiesWith(less, c), p, s);
      assert Ties(less, c, a) == Ties(less, c, s);
    }
    StableSortUnique(less, dom, Filter(p, s), Filter(p, a));
  }

  lemma {:induction false} FilterOrdered<T(!new)>(less: Less<T>, p: T -> bool, s: seq<T>)
    requires Ordered(less, s)
    ensures Ordered(less, Filter(p, s))
  {
    if s != [] {
      assert forall i, j :: 0 <= i < j < |s[1..]| ==> s[1..][i] == s[i + 1] && s[1..][j] == s[j + 1];
      FilterOrdered(less, p, s[1..]);
      FilterMembers(p, s[1..]);
      var f := Filter(p, s[1..]);
      forall j | 0 <= j < |f| ensures !less(f[j], s[0]) {
        var e := f[j];
        assert e in f;
        assert e in s[1..];
        var i :| 0 <= i < |s[1..]| && s[1..][i] == f[j];
        assert s[i + 1] == f[j];
      }
    }
  }

  lemma {:induction false} FilterMultiset<T(!new)>(p: T -> bool, s: seq<T>, t: seq<T>)
    requires multiset(s) == multiset(t)
    ensures multiset(Filter(p, s)) == multiset(Filter(p, t))
    decreases |s|
  {
    SameMembers(s, t);
    if s != [] {
      assert s[0] in t;
      var i :| 0 <= i < |t| && t[i] == s[0];
      var u, v := t[..i], t[i + 1..];
      assert t == u + ([s[0]] + v);
      RemoveOne(s, t, i);
      FilterMultiset(p, s[1..], u + v);
      FilterAppend(p, u, v);
      FilterAppend(p, u, [s[0]] + v);
    }
  }

  /** No two positions of `s` hold elements that tie. */
  ghost predicate NoTies<T>(less: Less<T>, s: seq<T>) {
    forall i, j :: 0 <= i < j < |s| ==> less(s[i], s[j]) || less(s[j], s[i])
  }

  /** Without ties the result does not depend on the order of the input. */
  lemma SortOrderIndependent<T(!new)>(less: Less<T>, dom: T -> bool, s: seq<T>, t: seq<T>)
    requires WeakOrder(less, dom) && All(dom, s)
    requires multiset(s) == multiset(t)
    requires NoTies(less, s)
    ensures Sort(less, s) == Sort(less, t)
  {
    SameMembers(s, t);
    SortIsStable(less, dom, t);
    var out := Sort(less, t);
    forall c | c in s ensures Ties(less, c, out) == Ties(less, c, s) {
      var p := TiesWith(less, c);
      assert c in multiset(t);
      FilterMultiset(p, s, out);
      OneTie(less, c, s);
      var f := Filter(p, out);
      assert |f| == |multiset(f)| == 1;
      assert f[0] in multiset(f);
    }
    StableSortUnique(less, dom, s, out);
  }

  lemma {:induction false} OneTie<T(!new)>(less: Less<T>, c: T, s: seq<T>)
    requires NoTies(less, s) && c in s
    requires !less(c, c)
    ensures Ties(less, c, s) == [c]
  {
    var p := TiesWith(less, c);
    var i :| 0 <= i < |s| && s[i] == c;
    assert s == s[..i] + [s[i]] + s[i + 1..];
    FilterAppend(p, s[..i], [s[i]]);
    FilterAppend(p, s[..i] + [s[i]], s[i + 1..]);
    FilterNone(p, s[..i]);
    FilterNone(p, s[i + 1..]);
  }

  // ----- truncation -----

  ghost predicate AllAbove<T(!new)>(less: Less<T>, y: T, w: seq<T>) {
    forall i :: 0 <= i < |w| ==> less(y, w[i])
  }

  /** An insertion moves past a suffix that lies above the new element ... */
  lemma {:induction false} InsertPast<T(!new)>(less: Less<T>, u: seq<T>, w: seq<T>, y: T)
    requires AllAbove(less, y, w)
    ensures Insert(less, u + w, y) == Insert(less, u, y) + w
    decreases |w|
  {
    var k := |w| - 1;
    if w == [] {
      assert u + w == u;
    } else {
      assert (u + w)[..|u + w| - 1] == u + w[..k];
      assert w == w[..k] + [w[k]];
      InsertPast(less, u, w[..k], y);
    }
  }

  /** ... and otherwise happens inside the suffix. */
  lemma {:induction false} InsertInside<T(!new)>(less: Less<T>, u: seq<T>, w: seq<T>, y: T, i: nat)
    requires i < |w| && !less(y, w[i])
    ensures Insert(less, u + w, y) == u + Insert(less, w, y)
    decreases |w|
  {
    var k := |w| - 1;
    if less(y, w[k]) {
      assert (u + w)[..|u + w| - 1] == u + w[..k];
      InsertInside(less, u, w[..k], y, i);
    }
  }

  /** Only the first `n` elements of an ordered list decide the first `n` after an insertion. */
  lemma TakeInsert<T(!new)>(less: Less<T>, dom: T -> bool, n: nat, t: seq<T>, y: T)
    requires WeakOrder(less, dom) && All(dom, t) && dom(y) && Ordered(less, t)
    ensures Take(n, Insert(less, t, y)) == Take(n, Insert(less, Take(n, t), y))
  {
    if n < |t| {
      forall i | n <= i < |t| && !less(y, t[i]) && n > 0 ensures !less(y, t[n - 1]) {
        assert !less(t[i], t[n - 1]);
        assert dom(t[i]) && dom(t[n - 1]);
      }
      TakeInsertAt(less, n, t, y);
    } else {
      assert Take(n, t) == t;
    }
  }

  lemma TakeInsertAt<T(!new)>(less: Less<T>, n: nat, t: seq<T>, y: T)
    requires n < |t|
    requires forall i :: n <= i < |t| && !less(y, t[i]) && n > 0 ==> !less(y, t[n - 1])
    ensures Take(n, Insert(less, t, y)) == Take(n, Insert(less, t[..n], y))
  {
    hide Insert;
    var u, w := t[..n], t[n..];
    assert t == u + w;
    if AllAbove(less, y, w) {
      TakeInsertBefore(less, n, u, w, y);
    } else {
      var i :| 0 <= i < |w| && !less(y, w[i]);
      assert w[i] == t[n + i];
      assert n > 0 ==> u[n - 1] == t[n - 1];
      TakeInsertBehind(less, n, u, w, y, i);
    }
  }

  /** The insertion happens among the first `n` ... */
  lemma TakeInsertBefore<T(!new)>(less: Less<T>, n: nat, u: seq<T>, w: seq<T>, y: T)
    requires n == |u| && AllAbove(less, y, w)
    ensures Take(n, Insert(less, u + w, y)) == Take(n, Insert(less, u, y))
  {
    hide Insert, Take;
    InsertPast(less, u, w, y);
    InsertMultiset(less, u, y);
    TakePrefix(n, Insert(less, u, y), w);
  }

  /** ... or behind them. */
  lemma TakeInsertBehind<T(!new)>(less: Less<T>, n: nat, u: seq<T>, w: seq<T>, y: T, i: nat)
    requires n == |u| && i < |w| && !less(y, w[i]) && (n > 0 ==> !less(y, u[n - 1]))
    ensures Take(n, Insert(less, u + w, y)) == Take(n, Insert(less, u, y))
  {
    hide Take;
    InsertInside(less, u, w, y, i);
    TakePrefix(n, u, Insert(less, w, y));
    assert Insert(less, u, y) == u + [y];
    TakePrefix(n, u, [y]);
  }

  lemma TakePrefix<T>(n: nat, u: seq<T>, w: seq<T>)
    requires n <= |u|
    ensures Take(n, u + w) == Take(n, u)
  {
    assert (u + w)[..n] == u[..n];
  }

  lemma LastSuffix<T>(n: nat, u: seq<T>, w: seq<T>)
    requires n <= |w|
    ensures Last(n, u + w) == Last(n, w)
  {
    assert (u + w)[|u + w| - n..] == w[|w| - n..];
  }

  lemma LastInsert<T(!new)>(less: Less<T>, n: nat, t: seq<T>, y: T)
    ensures Last(n, Insert(less, t, y)) == Last(n, Insert(less, Last(n, t), y))
  {
    if n < |t| {
      LastInsertAt(less, n, t[..|t| - n], t[|t| - n..], y);
      assert t == t[..|t| - n] + t[|t| - n..];
    }
  }

  lemma LastInsertAt<T(!new)>(less: Less<T>, n: nat, u: seq<T>, w: seq<T>, y: T)
    requires |w| == n
    ensures Last(n, Insert(less, u + w, y)) == Last(n, Insert(less, w, y))
  {
    if AllAbove(less, y, w) {
      InsertPast(less, u, w, y);
      LastSuffix(n, Insert(less, u, y), w);
      InsertPast(less, [], w, y);
      assert [] + w == w;
      LastSuffix(n, [y], w);
    } else {
      var i :| 0 <= i < |w| && !less(y, w[i]);
      InsertInside(less, u, w, y, i);
      InsertMultiset(less, w, y);
      LastSuffix(n, u, Insert(less, w, y));
    }
  }

  /** Truncating a sorted prefix early loses nothing that the final truncation keeps. */
  lemma {:induction false} TakeInsertAll<T(!new)>(less: Less<T>, dom: T -> bool, n: nat, t: seq<T>, ys: seq<T>)
    requires WeakOrder(less, dom) && All(dom, t) && All(dom, ys) && Ordered(less, t)
    ensures Take(n, InsertAll(less, t, ys)) == Take(n, InsertAll(less, Take(n, t), ys))
    decreases |ys|
  {
    if ys == [] {
      assert Take(n, Take(n, t)) == Take(n, t);
    } else {
      var u := Insert(less, t, ys[0]);
      var v := Insert(less, Take(n, t), ys[0]);
      InsertOrdered(less, dom, t, ys[0]);
      InsertOrdered(less, dom, Take(n, t), ys[0]);
      TakeInsert(less, dom, n, t, ys[0]);
      TakeInsertAll(less, dom, n, u, ys[1..]);
      TakeInsertAll(less, dom, n, v, ys[1..]);
    }
  }

  lemma {:induction false} LastInsertAll<T(!new)>(less: Less<T>, n: nat, t: seq<T>, ys: seq<T>)
    ensures Last(n, InsertAll(less, t, ys)) == Last(n, InsertAll(less, Last(n, t), ys))
    decreases |ys|
  {
    if ys == [] {
      assert Last(n, Last(n, t)) == Last(n, t);
    } else {
      LastInsert(less, n, t, ys[0]);
      LastInsertAll(less, n, Insert(less, t, ys[0]), ys[1..]);
      LastInsertAll(less, n, Insert(less, Last(n, t), ys[0]), ys[1..]);
    }
  }

  /** A sorted list truncated to its first `n`, extended and sorted again, has the same
      first `n` as the sort of everything. */
  lemma TakeSortStep<T(!new)>(less: Less<T>, dom: T -> bool, n: nat, xs: seq<T>, ys: seq<T>)
    requires WeakOrder(less, dom) && All(dom, xs) && All(dom, ys)
    ensures Take(n, Sort(less, Take(n, Sort(less, xs)) + ys)) == Take(n, Sort(less, xs + ys))
  {
    hide InsertAll, Take, Ordered;
    var s := Sort(less, xs);
    SortIsStable(less, dom, xs);
    SortMore(less, xs, ys);
    OrderedPrefix(less, dom, n, s);
    SortMoreOrdered(less, Take(n, s), ys);
    TakeInsertAll(less, dom, n, s, ys);
  }

  lemma OrderedPrefix<T(!new)>(less: Less<T>, dom: T -> bool, n: nat, s: seq<T>)
    requires Ordered(less, s) && All(dom, s)
    ensures Ordered(less, Take(n, s)) && All(dom, Take(n, s))
  {
  }

  /** Sorting a concatenation inserts the second part into the sorted first part, */
  lemma SortMore<T(!new)>(less: Less<T>, xs: seq<T>, ys: seq<T>)
    ensures Sort(less, xs + ys) == InsertAll(less, Sort(less, xs), ys)
  {
    hide InsertAll;
    InsertAllAppend(less, [], xs, ys);
  }

  /** and into the first part itself when that is sorted. */
  lemma SortMoreOrdered<T(!new)>(less: Less<T>, s: seq<T>, ys: seq<T>)
    requires Ordered(less, s)
    ensures Sort(less, s + ys) == InsertAll(less, s, ys)
  {
    hide InsertAll;
    SortMore(less, s, ys);
    assert [] + s == s;
    SortOrdered(less, [], s);
  }

  lemma LastSortStep<T(!new)>(less: Less<T>, dom: T -> bool, n: nat, xs: seq<T>, ys: seq<T>)
    requires WeakOrder(less, dom) && All(dom, xs) && All(dom, ys)
    ensures Last(n, Sort(less, Last(n, Sort(less, xs)) + ys)) == Last(n, Sort(less, xs + ys))
  {
    hide InsertAll, Last, Ordered;
    var s := Sort(less, xs);
    SortIsStable(less, dom, xs);
    SortMore(less, xs, ys);
    OrderedSuffix(less, n, s);
    SortMoreOrdered(less, Last(n, s), ys);
    LastInsertAll(less, n, s, ys);
  }

  lemma OrderedSuffix<T(!new)>(less: Less<T>, n: nat, s: seq<T>)
    requires Ordered(less, s)
    ensures Ordered(less, Last(n, s))
  {
  }

  // ----- in place -----

  /** Insertion sort over a slice, as `sort.SliceStable` runs it on one block. */
  method SortInPlace<T(!new)>(less: Less<T>, a: array<T>)
    modifies a
    ensures a[..] == Sort(less, old(a[..]))
  {
    var i := 0;
    assert a[..0] == [] && a[0..] == a[..];
    while i < a.Length
      invariant 0 <= i <= a.Length
      invariant InsertAll(less, a[..i], a[i..]) == Sort(less, old(a[..]))
    {
      assert a[i..] == [a[i]] + a[i + 1..];
      InsertInPlace(less, a, i);
      i := i + 1;
    }
    assert a[..i] == a[..];
  }

  method InsertInPlace<T(!new)>(less: Less<T>, a: array<T>, i: nat)
    requires i < a.Length
    modifies a
    ensures a[..i + 1] == Insert(less, old(a[..i]), old(a[i]))
    ensures a[i + 1..] == old(a[i + 1..])
  {
    var j := i;
    while j > 0 && less(a[j], a[j - 1])
      invariant 0 <= j <= i
      invariant a[j] == old(a[i])
      invariant forall m :: i < m < a.Length ==> a[m] == old(a[m])
      invariant forall m :: 0 <= m < j ==> a[m] == old(a[m])
      invariant forall m :: j < m <= i ==> a[m] == old(a[m - 1])
      invariant forall m :: j <= m < i ==> less(old(a[i]), old(a[m]))
    {
      a[j], a[j - 1] := a[j - 1], a[j];
      j := j - 1;
    }
    Inserted(less, old(a[..]), a[..], i, j);
    assert a[..][..i + 1] == a[..i + 1] && a[..][i + 1..] == a[i + 1..];
    assert old(a[..])[..i] == old(a[..i]) && old(a[..])[i + 1..] == old(a[i + 1..]);
  }

  /** Element `i` has been moved to `j`. */
  lemma Inserted<T(!new)>(less: Less<T>, was: seq<T>, now: seq<T>, i: nat, j: nat)
    requires j <= i < |was| == |now|
    requires now[j] == was[i] && forall m :: i < m < |was| ==> now[m] == was[m]
    requires forall m :: 0 <= m < j ==> now[m] == was[m]
    requires forall m :: j < m <= i ==> now[m] == was[m - 1]
    requires forall m :: j <= m < i ==> less(was[i], was[m])
    requires j > 0 ==> !less(was[i], was[j - 1])
    ensures now[..i + 1] == Insert(less, was[..i], was[i])
    ensures now[i + 1..] == was[i + 1..]
  {
    var t := was[..i];
    InsertAt(less, t, was[i], j);
    assert now[..i + 1] == t[..j] + [was[i]] + t[j..];
  }

  lemma {:induction false} InsertAt<T(!new)>(less: Less<T>, t: seq<T>, y: T, j: nat)
    requires j <= |t|
    requires j > 0 ==> !less(y, t[j - 1])
    requires forall m :: j <= m < |t| ==> less(y, t[m])
    ensures Insert(less, t, y) == t[..j] + [y] + t[j..]
    decreases |t|
  {
    var k := |t| - 1;
    if j < |t| {
      InsertAt(less, t[..k], y, j);
      assert t[..k][..j] == t[..j] && t[..k][j..] + [t[k]] == t[j..];
    }
  }
}
