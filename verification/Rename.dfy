/** renameCollection: read the source, drop or create the target, insert the documents
    into it, drop the source (internal/handler/handler.go:412-440). */
module Rename {
  import opened Backends
  import opened Bson
  import opened Enumerations
  import opened Collections
  import opened Keys
  import opened Matching
  import Paging
  import TidbStore

  // ----- inserting what was found -----

  function Restricted(c: Coll, keys: seq<string>): Coll
    requires forall k :: k in keys ==> k in c
  {
    map k | k in keys :: c[k]
  }

  /** None of the documents is in the way of its key, and all pass the validator. */
  ghost predicate Insertable(base: Coll, c: Coll, keys: seq<string>, validator: Document)
    requires forall k :: k in keys ==> k in c
  {
    forall k :: k in keys ==> k !in base && Validates(validator, c[k])
  }

  lemma FirstInsert(base: Coll, c: Coll, keys: seq<string>, validator: Document)
    requires KeyInvariant(c) && keys != []
    requires forall k :: k in keys ==> k in c
    ensures InsertInto(base, DocsAt(c, keys), validator) ==
            var k := keys[0];
            if Validates(validator, c[k]) && k !in base then InsertInto(base[k := c[k]], DocsAt(c, keys[1..]), validator)
            else Changed(base, false)
  {
    var docs := DocsAt(c, keys);
    assert docs[0] == c[keys[0]] && docs[1..] == DocsAt(c, keys[1..]);
    assert DocumentIDKey(c[keys[0]]) == Ok(keys[0]);
  }

  lemma FirstInsertable(base: Coll, c: Coll, keys: seq<string>, validator: Document)
    requires keys != [] && NoRepeats(keys)
    requires forall k :: k in keys ==> k in c
    ensures var k := keys[0];
            Insertable(base, c, keys, validator) <==>
            Validates(validator, c[k]) && k !in base && Insertable(base[k := c[k]], c, keys[1..], validator)
  {
    var k, rest := keys[0], keys[1..];
    assert keys == [k] + rest;
    assert k !in rest;
    forall l | l in rest ensures l in keys && (l in base[k := c[k]] <==> l in base) {
    }
  }

  lemma FirstCopied(base: Coll, c: Coll, keys: seq<string>)
    requires keys != [] && forall k :: k in keys ==> k in c
    ensures base[keys[0] := c[keys[0]]] + Restricted(c, keys[1..]) == base + Restricted(c, keys)
  {
    assert keys == [keys[0]] + keys[1..];
  }

  /** Inserting the documents of a collection that is filed by key copies them, unless a
      key is taken or a document does not validate. */
  lemma {:induction false} InsertCopies(base: Coll, c: Coll, keys: seq<string>, validator: Document)
    requires KeyInvariant(c)
    requires forall k :: k in keys ==> k in c
    requires NoRepeats(keys)
    ensures var r := InsertInto(base, DocsAt(c, keys), validator);
            && (r.ok <==> Insertable(base, c, keys, validator))
            && (r.ok ==> r.coll == base + Restricted(c, keys))
    decreases |keys|
  {
    if keys == [] {
      assert base + Restricted(c, keys) == base;
    } else {
      FirstInsert(base, c, keys, validator);
      FirstInsertable(base, c, keys, validator);
      if Validates(validator, c[keys[0]]) && keys[0] !in base {
        InsertCopies(base[keys[0] := c[keys[0]]], c, keys[1..], validator);
        FirstCopied(base, c, keys);
      }
    }
  }

  /** The whole collection, in whatever order it was found. */
  lemma InsertAllFound(base: Coll, c: Coll, order: seq<string>, validator: Document)
    requires KeyInvariant(c) && Enumerates(order, c.Keys)
    ensures var r := InsertInto(base, DocsAt(c, order), validator);
            && (r.ok <==> CanMove(base, c, validator))
            && (r.ok ==> r.coll == base + c)
  {
    InsertCopies(base, c, order, validator);
    assert Restricted(c, order) == c;
  }

  /** The documents of `c` can all be added to `base`. */
  ghost predicate CanMove(base: Coll, c: Coll, validator: Document) {
    base.Keys !! c.Keys && forall k :: k in c ==> Validates(validator, c[k])
  }

  lemma AllFound(memory: bool, c: Coll, res: Result<seq<Document>>) returns (order: seq<string>)
    requires Finds(memory, c, FindRequest(map[], NO_OPTIONS), res)
    ensures Enumerates(order, c.Keys) && res == Ok(DocsAt(c, order))
  {
    if memory {
      order := Paging.WholeOrder(c, res.value);
    } else {
      TidbStore.EverythingFound(c, res);
      order := ScanOrder(c.Keys);
    }
  }

  // ----- the protocol -----

  ghost predicate SameContents(s: map<string, Coll>, t: map<string, Coll>) {
    forall location :: At(t, location) == At(s, location)
  }

  /** The states around the calls to the store: at the start, after the find, the drop of
      the target if asked for, its creation, the insert if there is anything to insert,
      and, unless that was refused, the drop of the source.  `validator` is that of the
      target at the start. */
  ghost predicate Protocol(
      memory: bool, from: string, to: string, dropTarget: bool, validator: Document, s: seq<map<string, Coll>>, ok: bool)
  {
    && |s| == (if ok then 6 else 5)
    && SameContents(s[0], s[1])
    && s[2] == (if dropTarget then s[1] - {to} else s[1])
    && SameContents(s[2], s[3])
    && (exists order ::
          CopyStep(memory, At(s[0], from), order, to, KeptValidator(memory, dropTarget, validator), s[3], s[4], ok))
    && (ok ==> s[5] == s[4] - {from})
  }

  /** Memory forgets the validator when the target is created, TiDB when it is dropped. */
  function KeptValidator(memory: bool, dropTarget: bool, validator: Document): Document {
    if memory || dropTarget then map[] else validator
  }

  ghost predicate CopyStep(
      memory: bool, source: Coll, order: seq<string>, to: string, validator: Document,
      was: map<string, Coll>, now: map<string, Coll>, ok: bool)
  {
    && Enumerates(order, source.Keys)
    && OnlyThere(was, to, now)
    && Changed(At(now, to), ok) == Inserted(memory, At(was, to), DocsAt(source, order), validator)
  }

  method RenameCollection(b: Backend, from: Namespace, to: Namespace, dropTarget: bool)
    returns (ok: bool, ghost trace: seq<map<string, Coll>>)
    modifies Objects(b)
    ensures Protocol(b.Memory?, Location(b, from), Location(b, to), dropTarget, old(ValidatorOf(b, to)), trace, ok)
    ensures trace[0] == old(State(b)) && trace[|trace| - 1] == State(b)
  {
    ghost var s0 := State(b);
    var docs;
    ghost var order;
    docs, order := ReadAll(b, from);
    ghost var s1 := State(b);
    if dropTarget {
      DropCollection(b, to);
    }
    ghost var s2 := State(b);
    CreateCollection(b, to);
    ghost var s3 := State(b);
    assert ValidatorOf(b, to) == KeptValidator(b.Memory?, dropTarget, old(ValidatorOf(b, to)));
    ok := CopyAll(b, to, docs, At(s0, Location(b, from)), order);
    ghost var s4 := State(b);
    trace := [s0, s1, s2, s3, s4];
    if ok {
      DropCollection(b, from);
      ghost var s5 := State(b);
      trace := [s0, s1, s2, s3, s4, s5];
    }
    assert CopyStep(b.Memory?, At(trace[0], Location(b, from)), order, Location(b, to),
                    KeptValidator(b.Memory?, dropTarget, old(ValidatorOf(b, to))), trace[3], trace[4], ok);
  }

  /** Inserts the documents, if there are any. */
  method CopyAll(b: Backend, to: Namespace, docs: seq<Document>, ghost source: Coll, ghost order: seq<string>)
    returns (ok: bool)
    requires Enumerates(order, source.Keys) && docs == DocsAt(source, order)
    modifies Objects(b)
    ensures CopyStep(b.Memory?, source, order, Location(b, to), old(ValidatorOf(b, to)), old(State(b)), State(b), ok)
  {
    ok := true;
    if |docs| > 0 {
      var inserted := Insert(b, to, docs);
      ok := inserted.Ok?;
    }
  }

  /** The whole collection, in the order it is found. */
  method ReadAll(b: Backend, ns: Namespace) returns (docs: seq<Document>, ghost order: seq<string>)
    modifies Objects(b)
    ensures SameContents(old(State(b)), State(b))
    ensures forall other :: ValidatorOf(b, other) == old(ValidatorOf(b, other))
    ensures Enumerates(order, old(Contents(b, ns)).Keys) && docs == DocsAt(old(Contents(b, ns)), order)
  {
    var found := Find(b, ns, FindRequest(map[], NO_OPTIONS));
    order := AllFound(b.Memory?, Contents(b, ns), found);
    docs := found.value;
  }

  // ----- what a rename keeps -----

  /** Every document of the source is there or in the target, under its own key. */
  ghost predicate NothingLost(source: Coll, s: map<string, Coll>, from: string, to: string) {
    forall k :: k in source ==>
      || (k in At(s, from) && At(s, from)[k] == source[k])
      || (k in At(s, to) && At(s, to)[k] == source[k])
  }

  lemma CopyResult(
      memory: bool, source: Coll, order: seq<string>, to: string, validator: Document,
      was: map<string, Coll>, now: map<string, Coll>, ok: bool)
    requires KeyInvariant(source) && CopyStep(memory, source, order, to, validator, was, now, ok)
    ensures ok <==> CanMove(At(was, to), source, validator)
    ensures ok ==> At(now, to) == At(was, to) + source
    ensures !ok && !memory ==> At(now, to) == At(was, to)
  {
    InsertAllFound(At(was, to), source, order, validator);
  }

  /** What the target keeps of its own. */
  function Base(s: map<string, Coll>, to: string, dropTarget: bool): Coll {
    if dropTarget then map[] else At(s, to)
  }

  /** Between different locations a rename never loses a document: in every state each
      one is in the source or in the target.  It succeeds exactly when the target can
      take all of them; then the target holds them beside what it kept, and the source
      is gone.  When it fails, the source is as it was, and on TiDB so is what the target
      kept. */
  lemma RenameLosesNothing(
      memory: bool, from: string, to: string, dropTarget: bool, validator: Document, s: seq<map<string, Coll>>, ok: bool)
    requires Protocol(memory, from, to, dropTarget, validator, s, ok)
    requires from != to && KeyInvariant(At(s[0], from))
    ensures forall i :: 0 <= i < |s| ==> NothingLost(At(s[0], from), s[i], from, to)
    ensures ok <==> CanMove(Base(s[0], to, dropTarget), At(s[0], from), KeptValidator(memory, dropTarget, validator))
    ensures ok ==> from !in s[5] && At(s[5], to) == Base(s[0], to, dropTarget) + At(s[0], from)
    ensures !ok ==> At(s[4], from) == At(s[0], from)
    ensures !ok && !memory ==> At(s[4], to) == Base(s[0], to, dropTarget)
  {
    TargetFilled(memory, from, to, dropTarget, validator, s, ok);
    SourceKept(memory, from, to, dropTarget, validator, s, ok);
    if ok {
      LastState(memory, from, to, dropTarget, validator, s);
    }
    forall i | 0 <= i < |s| ensures NothingLost(At(s[0], from), s[i], from, to) {
      assert i < 5 || i == 5;
    }
  }

  lemma LastState(
      memory: bool, from: string, to: string, dropTarget: bool, validator: Document, s: seq<map<string, Coll>>)
    requires Protocol(memory, from, to, dropTarget, validator, s, true)
    requires from != to && exists base :: At(s[4], to) == base + At(s[0], from)
    ensures |s| == 6 && from !in s[5] && At(s[5], to) == At(s[4], to)
    ensures NothingLost(At(s[0], from), s[5], from, to)
  {
  }

  lemma TargetFilled(
      memory: bool, from: string, to: string, dropTarget: bool, validator: Document, s: seq<map<string, Coll>>, ok: bool)
    requires Protocol(memory, from, to, dropTarget, validator, s, ok)
    requires from != to && KeyInvariant(At(s[0], from))
    ensures var source, base := At(s[0], from), Base(s[0], to, dropTarget);
            && (ok <==> CanMove(base, source, KeptValidator(memory, dropTarget, validator)))
            && (ok ==> At(s[4], to) == base + source)
            && (!ok && !memory ==> At(s[4], to) == base)
  {
    var source, kept := At(s[0], from), KeptValidator(memory, dropTarget, validator);
    var order :| CopyStep(memory, source, order, to, kept, s[3], s[4], ok);
    assert At(s[1], to) == At(s[0], to);
    assert At(s[3], to) == At(s[2], to) == Base(s[0], to, dropTarget);
    CopyResult(memory, source, order, to, kept, s[3], s[4], ok);
  }

  /** Until its drop the source is not touched. */
  lemma SourceKept(
      memory: bool, from: string, to: string, dropTarget: bool, validator: Document, s: seq<map<string, Coll>>, ok: bool)
    requires Protocol(memory, from, to, dropTarget, validator, s, ok) && from != to
    ensures forall i :: 0 <= i < 5 ==> At(s[i], from) == At(s[0], from) && NothingLost(At(s[0], from), s[i], from, to)
  {
    var source := At(s[0], from);
    assert At(s[1], from) == source;
    assert At(s[2], from) == source;
    assert At(s[3], from) == source;
    assert At(s[4], from) == source;
  }

  /** Onto its own location, which includes another namespace in the same TiDB table, a
      rename that drops its target reports success and leaves nothing; without dropping
      it fails and changes nothing, unless there is nothing to rename. */
  lemma RenameOntoItself(
      memory: bool, at: string, dropTarget: bool, validator: Document, s: seq<map<string, Coll>>, ok: bool)
    requires Protocol(memory, at, at, dropTarget, validator, s, ok)
    requires KeyInvariant(At(s[0], at))
    ensures ok <==> dropTarget || At(s[0], at) == map[]
    ensures ok ==> at !in s[5]
    ensures !ok ==> At(s[4], at) == At(s[0], at)
  {
    var source, kept := At(s[0], at), KeptValidator(memory, dropTarget, validator);
    var order :| CopyStep(memory, source, order, at, kept, s[3], s[4], ok);
    CopyResult(memory, source, order, at, kept, s[3], s[4], ok);
    if dropTarget {
      assert At(s[3], at) == map[];
    } else {
      assert At(s[3], at) == source;
      NoSelfMove(memory, source, order, kept);
    }
  }

  /** A collection cannot be inserted into itself: the first document is refused. */
  lemma NoSelfMove(memory: bool, c: Coll, order: seq<string>, validator: Document)
    requires KeyInvariant(c) && Enumerates(order, c.Keys)
    ensures CanMove(c, c, validator) <==> c == map[]
    ensures Inserted(memory, c, DocsAt(c, order), validator).coll == c
  {
    if c != map[] {
      var k :| k in c;
      assert k in order;
      assert order[0] in order;
      FirstInsert(c, c, order, validator);
    }
  }
}
