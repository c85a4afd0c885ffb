/** Grouping (`group`, `evalExpr` and `unwind` in internal/mql/mql.go).

    The engine keeps one state per group key and feeds it document by document, walking
    the specification in arbitrary order.  `GroupsTo` says what the result is without
    any state: each group is computed from its members, field by field.  The operators
    of one field share one slot, and each document visits them in an order of its own. */
module Groups {
  import opened Bson
  import opened Enumerations
  import opened Paths
  import opened StableSort

  /** `fmt.Sprintf("%#v", v)`, the text two group ids are compared by. */
  const GoSyntax: Value -> string

  function EvalExpr(doc: Document, expr: Value): Value {
    if expr.Str? && |expr.s| > 1 && expr.s[0] == '$' then ValueByPath(doc, expr.s[1..]).value
    else if expr.Map? && expr.m != map[] then Map(map k | k in expr.m :: EvalExpr(doc, expr.m[k]))
    else expr
  }

  function GroupKey(doc: Document, idExpr: Value): string {
    GoSyntax(EvalExpr(doc, idExpr))
  }

  // ----- accumulators -----

  datatype Accumulator = Sum | Avg | Min | Max | Push | AddToSet | Unsupported

  function AccumulatorNamed(name: string): Accumulator {
    if name == "$sum" then Sum
    else if name == "$avg" then Avg
    else if name == "$min" then Min
    else if name == "$max" then Max
    else if name == "$push" then Push
    else if name == "$addToSet" then AddToSet
    else Unsupported
  }

  /** The field of a state document after one more value. */
  function Accumulate(acc: Accumulator, old_: Option<Value>, v: Value): Value {
    var current := if old_.Some? then old_.get else Null;
    match acc
    case Sum => Double(ToFloat(current) + ToFloat(v))
    case Avg => Double(ToFloat(current) + ToFloat(v))
    case Min => if old_.None? || Compare(v, current) < 0 then v else current
    case Max => if old_.None? || Compare(v, current) > 0 then v else current
    case Push => Array(AsArray(current) + [v])
    case AddToSet =>
      Array(if ArrayContains(AsArray(current), v) then AsArray(current) else AsArray(current) + [v])
    case Unsupported => current
  }

  /** What a group keeps for one output field: the value and the `$avg` counter. */
  datatype Slot = Slot(value: Option<Value>, count: nat)

  function FeedSlot(slot: Slot, acc: Accumulator, v: Value): Slot {
    Slot(Some(Accumulate(acc, slot.value, v)), if acc == Avg then slot.count + 1 else slot.count)
  }

  /** One document, seen by the operators of a field in the given order. */
  function FeedAll(slot: Slot, body: Document, doc: Document, order: seq<string>): Slot
    requires forall op :: op in order ==> op in body
  {
    if order == [] then slot
    else
      var n := |order| - 1;
      FeedSlot(FeedAll(slot, body, doc, order[..n]), AccumulatorNamed(order[n]), EvalExpr(doc, body[order[n]]))
  }

  ghost predicate Feeds(slot: Slot, body: Document, doc: Document, next: Slot) {
    exists order :: Enumerates(order, body.Keys) && next == FeedAll(slot, body, doc, order)
  }

  /** The slots that a field with these operators can hold after `members`. */
  ghost predicate Reaches(body: Document, members: seq<Document>, slot: Slot)
    decreases |members|
  {
    if members == [] then slot == Slot(None, 0)
    else
      var n := |members| - 1;
      exists before :: Reaches(body, members[..n], before) && Feeds(before, body, members[n], slot)
  }

  /** What the stage returns for a slot. */
  function Finish(slot: Slot): Value {
    var v := if slot.value.Some? then slot.value.get else Null;
    if slot.count > 0 then Double(ToFloat(v) / (slot.count as real)) else v
  }

  // ----- specification of a group stage -----

  /** The output fields with an accumulator. */
  function OutputFields(spec: Document): set<string> {
    set out | out in spec && out != "_id" && AsMap(spec[out]) != map[]
  }

  function Members(docs: seq<Document>, key: string, idExpr: Value): seq<Document> {
    Filter(InGroup(key, idExpr), docs)
  }

  function InGroup(key: string, idExpr: Value): Document -> bool {
    doc => GroupKey(doc, idExpr) == key
  }

  /** A result document for a group: its id, and for every output field what one of its
      possible slots gives. */
  ghost predicate IsGroupResult(members: seq<Document>, spec: Document, doc: Document)
    requires members != []
  {
    && doc.Keys == OutputFields(spec) + {"_id"}
    && doc["_id"] == EvalExpr(members[0], Lookup(spec, "_id"))
    && forall out :: out in OutputFields(spec) ==> FieldResult(AsMap(spec[out]), members, doc[out])
  }

  ghost predicate FieldResult(body: Document, members: seq<Document>, v: Value) {
    exists slot :: Reaches(body, members, slot) && v == Finish(slot)
  }

  function GroupKeys(docs: seq<Document>, idExpr: Value): set<string> {
    set i | 0 <= i < |docs| :: GroupKey(docs[i], idExpr)
  }

  ghost predicate Supported(spec: Document) {
    forall out :: out in OutputFields(spec) ==> AllSupported(AsMap(spec[out]))
  }

  predicate AllSupported(body: Document) {
    forall op | op in body :: AccumulatorNamed(op) != Unsupported
  }

  /** One result per group key, in arbitrary order. */
  ghost predicate GroupsTo(docs: seq<Document>, spec: Document, res: seq<Document>) {
    exists order :: GroupsInOrder(docs, spec, order, res)
  }

  ghost predicate GroupsInOrder(docs: seq<Document>, spec: Document, order: seq<string>, res: seq<Document>) {
    Enumerates(order, GroupKeys(docs, Lookup(spec, "_id"))) && ResultsOf(docs, spec, order, res)
  }

  /** The results of the groups with the given keys. */
  ghost predicate ResultsOf(docs: seq<Document>, spec: Document, order: seq<string>, res: seq<Document>) {
    var id := Lookup(spec, "_id");
    && |res| == |order|
    && forall i :: 0 <= i < |order| ==>
         Members(docs, order[i], id) != [] && IsGroupResult(Members(docs, order[i], id), spec, res[i])
  }

  // ----- the engine's loop -----

  /** A group under construction: its document and the `$avg` counters. */
  datatype State = State(doc: Document, counts: map<string, nat>)

  function Count(counts: map<string, nat>, out: string): nat {
    if out in counts then counts[out] else 0
  }

  function SlotOf(st: State, out: string): Slot {
    Slot(Field(st.doc, out), Count(st.counts, out))
  }

  /** `st` is the state of a group with the given id after `members`. */
  ghost predicate StateOf(st: State, id: Value, members: seq<Document>, spec: Document) {
    PartlyFed(st, id, members, members, spec, {})
  }

  /** The fields in `todo` have seen `members`, the others `more`. */
  ghost predicate PartlyFed(
      st: State, id: Value, members: seq<Document>, more: seq<Document>, spec: Document, todo: set<string>)
  {
    && "_id" in st.doc && st.doc["_id"] == id
    && st.doc.Keys <= OutputFields(spec) + {"_id"}
    && st.counts.Keys <= OutputFields(spec)
    && forall out :: out in OutputFields(spec) ==>
         Reaches(AsMap(spec[out]), if out in todo then members else more, SlotOf(st, out))
  }

  function FeedOne(st: State, out: string, acc: Accumulator, v: Value): State {
    State(
      st.doc[out := Accumulate(acc, Field(st.doc, out), v)],
      if acc == Avg then st.counts[out := Count(st.counts, out) + 1] else st.counts)
  }

  /** Nothing changes but the slot of `out`. */
  ghost predicate SameButSlot(st: State, out: string, next: State) {
    && (forall k :: k != out ==> Field(next.doc, k) == Field(st.doc, k))
    && forall k :: k != out ==> (k in next.counts <==> k in st.counts) && Count(next.counts, k) == Count(st.counts, k)
  }

  lemma FeedOneSlot(st: State, was: State, out: string, acc: Accumulator, v: Value)
    requires SameButSlot(was, out, st)
    ensures SlotOf(FeedOne(st, out, acc, v), out) == FeedSlot(SlotOf(st, out), acc, v)
    ensures SameButSlot(was, out, FeedOne(st, out, acc, v))
  {
  }

  lemma FeedMore(slot: Slot, body: Document, doc: Document, order: seq<string>, op: string)
    requires op in body && forall o :: o in order ==> o in body
    ensures forall o :: o in order + [op] ==> o in body
    ensures FeedAll(slot, body, doc, order + [op]) ==
            FeedSlot(FeedAll(slot, body, doc, order), AccumulatorNamed(op), EvalExpr(doc, body[op]))
  {
    assert (order + [op])[..|order|] == order;
  }

  /** The accumulators of one output field, in arbitrary order. */
  method FeedField(st: State, out: string, body: Document, doc: Document) returns (next: State, ok: bool)
    ensures ok <==> AllSupported(body)
    ensures ok ==> Feeds(SlotOf(st, out), body, doc, SlotOf(next, out)) && SameButSlot(st, out, next)
    ensures body == map[] ==> next == st
  {
    next := st;
    var todo := body.Keys;
    ghost var order: seq<string> := [];
    while todo != {}
      invariant todo <= body.Keys
      invariant Enumerates(order, body.Keys - todo)
      invariant SlotOf(next, out) == FeedAll(SlotOf(st, out), body, doc, order)
      invariant SameButSlot(st, out, next)
      invariant forall op :: op in body && op !in todo ==> AccumulatorNamed(op) != Unsupported
      invariant body == map[] ==> next == st
      decreases todo
    {
      var op :| op in todo;
      var acc := AccumulatorNamed(op);
      if acc == Unsupported {
        return next, false;
      }
      FeedOneSlot(next, st, out, acc, EvalExpr(doc, body[op]));
      FeedMore(SlotOf(st, out), body, doc, order, op);
      EnumerateNext(order, body.Keys, todo, op);
      next := FeedOne(next, out, acc, EvalExpr(doc, body[op]));
      order := order + [op];
      todo := todo - {op};
    }
    assert body.Keys - todo == body.Keys;
    ok := true;
  }

  /** Every output field sees the document once, in arbitrary order. */
  method FeedState(st: State, spec: Document, doc: Document, ghost members: seq<Document>, ghost id: Value)
    returns (next: State, ok: bool)
    requires StateOf(st, id, members, spec)
    ensures ok <==> Supported(spec)
    ensures ok ==> StateOf(next, id, members + [doc], spec)
  {
    next := st;
    var todo := spec.Keys;
    NothingFed(st, id, members, doc, spec);
    while todo != {}
      invariant todo <= spec.Keys
      invariant PartlyFed(next, id, members, members + [doc], spec, todo)
      invariant forall out :: out in OutputFields(spec) && out !in todo ==> AllSupported(AsMap(spec[out]))
      decreases todo
    {
      var out :| out in todo;
      ghost var before, wasTodo := next, todo;
      todo := todo - {out};
      if out == "_id" {
        OtherTodo(next, id, members, doc, spec, wasTodo, out);
        continue;
      }
      var body := AsMap(spec[out]);
      next, ok := FeedField(next, out, body, doc);
      if !ok {
        assert out in OutputFields(spec);
        return;
      }
      FedField(before, id, members, doc, spec, wasTodo, out, next);
    }
    ok := true;
    AllFed(next, id, members, doc, spec);
  }

  lemma NothingFed(st: State, id: Value, members: seq<Document>, doc: Document, spec: Document)
    requires StateOf(st, id, members, spec)
    ensures PartlyFed(st, id, members, members + [doc], spec, spec.Keys)
  {
    forall out | out in OutputFields(spec) ensures Reaches(AsMap(spec[out]), members, SlotOf(st, out)) {
    }
  }

  lemma AllFed(st: State, id: Value, members: seq<Document>, doc: Document, spec: Document)
    requires PartlyFed(st, id, members, members + [doc], spec, {})
    ensures StateOf(st, id, members + [doc], spec)
  {
  }

  /** A key without operators makes no difference. */
  lemma OtherTodo(
      st: State, id: Value, members: seq<Document>, doc: Document, spec: Document, todo: set<string>, out: string)
    requires out !in OutputFields(spec) && PartlyFed(st, id, members, members + [doc], spec, todo)
    ensures PartlyFed(st, id, members, members + [doc], spec, todo - {out})
  {
    forall other | other in OutputFields(spec)
      ensures Reaches(
                AsMap(spec[other]), if other in todo - {out} then members else members + [doc], SlotOf(st, other))
    {
    }
  }

  lemma FedField(
      st: State, id: Value, members: seq<Document>, doc: Document, spec: Document, todo: set<string>, out: string,
      next: State)
    requires out in spec && out != "_id" && out in todo
    requires PartlyFed(st, id, members, members + [doc], spec, todo)
    requires Feeds(SlotOf(st, out), AsMap(spec[out]), doc, SlotOf(next, out)) && SameButSlot(st, out, next)
    requires AsMap(spec[out]) == map[] ==> next == st
    ensures PartlyFed(next, id, members, members + [doc], spec, todo - {out})
  {
    hide Feeds, Reaches;
    if out !in OutputFields(spec) {
      OtherTodo(st, id, members, doc, spec, todo, out);
    } else {
      ReachMore(AsMap(spec[out]), members, doc, SlotOf(st, out), SlotOf(next, out));
      assert Field(next.doc, "_id") == Field(st.doc, "_id");
      forall k | k in next.doc ensures k in OutputFields(spec) + {"_id"} {
        assert k != out ==> Field(next.doc, k) == Field(st.doc, k);
      }
      forall other | other in OutputFields(spec)
        ensures Reaches(
                  AsMap(spec[other]), if other in todo - {out} then members else members + [doc], SlotOf(next, other))
      {
        assert other != out ==> SlotOf(next, other) == SlotOf(st, other);
      }
    }
  }

  lemma ReachMore(body: Document, members: seq<Document>, doc: Document, slot: Slot, next: Slot)
    requires Reaches(body, members, slot) && Feeds(slot, body, doc, next)
    ensures Reaches(body, members + [doc], next)
  {
    var all := members + [doc];
    assert all[..|all| - 1] == members && all[|all| - 1] == doc;
  }

  // ----- finishing -----

  /** Every field with its counter applied. */
  function Finished(st: State): Document {
    map k | k in st.doc.Keys + st.counts.Keys && (k in st.doc || Count(st.counts, k) > 0) :: Finish(SlotOf(st, k))
  }

  /** Divides every `$avg` field by its counter, in arbitrary order. */
  method FinishState(st: State) returns (doc: Document)
    ensures doc == Finished(st)
  {
    doc := st.doc;
    var todo := st.counts.Keys;
    while todo != {}
      invariant todo <= st.counts.Keys
      invariant forall k :: k in doc <==> k in st.doc || (k !in todo && Count(st.counts, k) > 0)
      invariant forall k :: k in doc ==> doc[k] == if k in todo then st.doc[k] else Finish(SlotOf(st, k))
      decreases todo
    {
      var field :| field in todo;
      todo := todo - {field};
      if st.counts[field] > 0 {
        doc := doc[field := Double(ToFloat(Lookup(doc, field)) / (st.counts[field] as real))];
      }
    }
  }

  lemma {:induction false} FedSlotHasValue(slot: Slot, body: Document, doc: Document, order: seq<string>)
    requires order != [] && forall op :: op in order ==> op in body
    ensures FeedAll(slot, body, doc, order).value.Some?
  {
  }

  /** A field with operators has a value once a document has been seen. */
  lemma ReachedHasValue(body: Document, members: seq<Document>, slot: Slot)
    requires members != [] && body != map[] && Reaches(body, members, slot)
    ensures slot.value.Some?
  {
    var n := |members| - 1;
    var before :| Reaches(body, members[..n], before) && Feeds(before, body, members[n], slot);
    var order :| Enumerates(order, body.Keys) && slot == FeedAll(before, body, members[n], order);
    assert body.Keys != {};
    var op :| op in body;
    assert op in order;
    FedSlotHasValue(before, body, members[n], order);
  }

  lemma FieldIsResult(st: State, members: seq<Document>, spec: Document, out: string)
    requires StateOfGroup(st, members, spec) && out in OutputFields(spec)
    ensures out in st.doc && FieldResult(AsMap(spec[out]), members, Finish(SlotOf(st, out)))
  {
    hide Reaches, Finish;
    ReachedHasValue(AsMap(spec[out]), members, SlotOf(st, out));
  }

  lemma FinishedIsResult(st: State, members: seq<Document>, spec: Document)
    requires StateOfGroup(st, members, spec)
    ensures IsGroupResult(members, spec, Finished(st))
  {
    hide Reaches, FieldResult;
    var doc := Finished(st);
    forall out | out in OutputFields(spec)
      ensures out in st.doc && FieldResult(AsMap(spec[out]), members, doc[out])
    {
      FieldIsResult(st, members, spec, out);
    }
    assert doc.Keys == OutputFields(spec) + {"_id"};
    assert SlotOf(st, "_id").count == 0;
  }

  // ----- the stage -----

  ghost predicate StatesOf(groups: map<string, State>, docs: seq<Document>, spec: Document) {
    var id := Lookup(spec, "_id");
    && groups.Keys == GroupKeys(docs, id)
    && forall key :: key in groups ==> StateOfGroup(groups[key], Members(docs, key, id), spec)
  }

  ghost predicate StateOfGroup(st: State, members: seq<Document>, spec: Document) {
    members != [] && StateOf(st, EvalExpr(members[0], Lookup(spec, "_id")), members, spec)
  }

  lemma MembersAppend(docs: seq<Document>, doc: Document, key: string, id: Value)
    ensures Members(docs + [doc], key, id) ==
            if GroupKey(doc, id) == key then Members(docs, key, id) + [doc] else Members(docs, key, id)
  {
    FilterAppend(InGroup(key, id), docs, [doc]);
    assert Filter(InGroup(key, id), [doc][1..]) == [];
  }

  lemma KeysAppend(docs: seq<Document>, doc: Document, id: Value)
    ensures GroupKeys(docs + [doc], id) == GroupKeys(docs, id) + {GroupKey(doc, id)}
  {
    var all := docs + [doc];
    assert all[|docs|] == doc;
    forall k | k in GroupKeys(docs, id) ensures k in GroupKeys(all, id) {
      var i :| 0 <= i < |docs| && GroupKey(docs[i], id) == k;
      assert all[i] == docs[i];
    }
  }

  lemma {:induction false} KeyHasMembers(docs: seq<Document>, key: string, id: Value)
    ensures key in GroupKeys(docs, id) <==> Members(docs, key, id) != []
  {
    FilterMembers(InGroup(key, id), docs);
    if key in GroupKeys(docs, id) {
      var i :| 0 <= i < |docs| && GroupKey(docs[i], id) == key;
      assert docs[i] in Members(docs, key, id);
    }
    if Members(docs, key, id) != [] {
      var doc := Members(docs, key, id)[0];
      assert doc in Members(docs, key, id);
      var i :| 0 <= i < |docs| && docs[i] == doc;
      assert GroupKey(docs[i], id) == key;
    }
  }

  /** Feeding one document to the group of its key keeps every group up to date. */
  lemma StatesExtend(
      groups: map<string, State>, docs: seq<Document>, doc: Document, spec: Document, key: string, next: State)
    requires StatesOf(groups, docs, spec)
    requires key == GroupKey(doc, Lookup(spec, "_id"))
    requires StateOfGroup(next, Members(docs, key, Lookup(spec, "_id")) + [doc], spec)
    ensures StatesOf(groups[key := next], docs + [doc], spec)
  {
    var id := Lookup(spec, "_id");
    hide StateOfGroup, Members;
    KeysAppend(docs, doc, id);
    MembersAppend(docs, doc, key, id);
    forall other | other in groups && other != key
      ensures StateOfGroup(groups[other], Members(docs + [doc], other, id), spec)
    {
      MembersAppend(docs, doc, other, id);
      assert StateOfGroup(groups[other], Members(docs, other, id), spec);
    }
    assert groups[key := next].Keys == GroupKeys(docs + [doc], id);
  }

  /** The state the engine feeds next: the group's, or a fresh one. */
  lemma StartState(groups: map<string, State>, docs: seq<Document>, doc: Document, spec: Document, key: string)
    requires StatesOf(groups, docs, spec)
    requires key == GroupKey(doc, Lookup(spec, "_id"))
    ensures var id := Lookup(spec, "_id");
            var members := Members(docs, key, id);
            var st := if key in groups then groups[key] else State(map["_id" := EvalExpr(doc, id)], map[]);
            StateOf(st, EvalExpr((members + [doc])[0], id), members, spec)
  {
    var id := Lookup(spec, "_id");
    var members := Members(docs, key, id);
    KeyHasMembers(docs, key, id);
    if key in groups {
      assert StateOfGroup(groups[key], members, spec);
    } else {
      assert members == [];
      assert (members + [doc])[0] == doc;
      FreshState(EvalExpr(doc, id), spec);
    }
  }

  lemma FreshState(id: Value, spec: Document)
    ensures StateOf(State(map["_id" := id], map[]), id, [], spec)
  {
  }

  /** Fails exactly when some document meets an unsupported accumulator; otherwise
      returns what `GroupsTo` says, for every iteration order. */
  method Group(docs: seq<Document>, spec: Document) returns (res: Result<seq<Document>>)
    ensures res.Err? <==> docs != [] && !Supported(spec)
    ensures res.Ok? ==> GroupsTo(docs, spec, res.value)
  {
    var groups: map<string, State> := map[];
    assert docs[..0] == [];
    for i := 0 to |docs|
      invariant StatesOf(groups, docs[..i], spec)
      invariant i > 0 ==> Supported(spec)
    {
      var ok;
      groups, ok := GroupOne(groups, docs[..i], docs[i], spec);
      assert docs[..i + 1] == docs[..i] + [docs[i]];
      if !ok {
        return Err("unsupported group accumulator");
      }
    }
    assert docs[..|docs|] == docs;
    var out := FinishAll(groups, docs, spec);
    return Ok(out);
  }

  method GroupOne(groups: map<string, State>, ghost docs: seq<Document>, doc: Document, spec: Document)
    returns (next: map<string, State>, ok: bool)
    requires StatesOf(groups, docs, spec)
    ensures ok <==> Supported(spec)
    ensures ok ==> StatesOf(next, docs + [doc], spec)
  {
    var idExpr := Lookup(spec, "_id");
    var id := EvalExpr(doc, idExpr);
    var key := GoSyntax(id);
    ghost var members := Members(docs, key, idExpr);
    var st := if key in groups then groups[key] else State(map["_id" := id], map[]);
    StartState(groups, docs, doc, spec, key);
    var fed;
    fed, ok := FeedState(st, spec, doc, members, EvalExpr((members + [doc])[0], idExpr));
    if ok {
      StatesExtend(groups, docs, doc, spec, key, fed);
    }
    next := groups[key := fed];
  }

  method FinishAll(groups: map<string, State>, ghost docs: seq<Document>, ghost spec: Document)
    returns (res: seq<Document>)
    requires StatesOf(groups, docs, spec)
    ensures GroupsTo(docs, spec, res)
  {
    hide ResultsOf, Enumerates, GroupKeys, StateOfGroup;
    var todo := groups.Keys;
    ghost var order: seq<string> := [];
    res := [];
    NoResults(docs, spec);
    assert groups.Keys - todo == {};
    while todo != {}
      invariant todo <= groups.Keys
      invariant Enumerates(order, groups.Keys - todo)
      invariant ResultsOf(docs, spec, order, res)
      decreases todo
    {
      var key :| key in todo;
      var doc := FinishState(groups[key]);
      OneMoreResult(groups, docs, spec, order, res, key);
      EnumerateNext(order, groups.Keys, todo, key);
      todo := todo - {key};
      order := order + [key];
      res := res + [doc];
    }
    assert groups.Keys - todo == groups.Keys;
    assert GroupsInOrder(docs, spec, order, res);
  }

  lemma NoResults(docs: seq<Document>, spec: Document)
    ensures Enumerates([], {}) && ResultsOf(docs, spec, [], [])
  {
  }

  lemma OneMoreResult(
      groups: map<string, State>, docs: seq<Document>, spec: Document, order: seq<string>, res: seq<Document>,
      key: string)
    requires StatesOf(groups, docs, spec) && key in groups && ResultsOf(docs, spec, order, res)
    ensures ResultsOf(docs, spec, order + [key], res + [Finished(groups[key])])
  {
    var members := Members(docs, key, Lookup(spec, "_id"));
    assert StateOfGroup(groups[key], members, spec);
    FinishedIsResult(groups[key], members, spec);
  }
}
