/** What the documents returned by `$group` say about their groups, and what the grouping
    conserves (internal/mql/mql.go:464-526). */
module GroupLaws {
  import opened Bson
  import opened Enumerations
  import opened Groups
  import opened Ordering

  // ----- fields with one operator -----

  /** The operator of a field that carries one: `{field: {op: expr}}`. */
  datatype Output = Output(acc: Accumulator, expr: Value)

  predicate OneOperator(spec: Document, out: string) {
    out in spec && out != "_id" && |AsMap(spec[out])| == 1
  }

  ghost function OutputOf(spec: Document, out: string): Output
    requires OneOperator(spec, out)
  {
    var body := AsMap(spec[out]);
    assert body.Keys != {};
    var op :| op in body;
    Output(AccumulatorNamed(op), body[op])
  }

  lemma OnlyOperator(spec: Document, out: string, op: string)
    requires OneOperator(spec, out) && op in AsMap(spec[out])
    ensures OutputOf(spec, out) == Output(AccumulatorNamed(op), AsMap(spec[out])[op])
    ensures AsMap(spec[out]).Keys == {op}
  {
    Alone(AsMap(spec[out]), op);
  }

  lemma Alone(body: Document, op: string)
    requires op in body && |body| == 1
    ensures body.Keys == {op}
  {
    assert |body.Keys| == |body|;
    assert |body.Keys - {op}| == 0;
  }

  function Values(docs: seq<Document>, expr: Value): seq<Value> {
    seq(|docs|, i requires 0 <= i < |docs| => EvalExpr(docs[i], expr))
  }

  /** An accumulator over a list of values; nothing for the empty list. */
  function Fold(acc: Accumulator, values: seq<Value>): Option<Value> {
    if values == [] then None
    else Some(Accumulate(acc, Fold(acc, values[..|values| - 1]), values[|values| - 1]))
  }

  /** The value of a field with one operator. */
  function FieldValue(output: Output, members: seq<Document>): Value
    requires members != []
  {
    var total := Fold(output.acc, Values(members, output.expr)).get;
    if output.acc == Avg then Double(ToFloat(total) / (|members| as real)) else total
  }

  lemma OneFeed(slot: Slot, body: Document, op: string, doc: Document, next: Slot)
    requires body.Keys == {op}
    ensures Feeds(slot, body, doc, next) <==> next == FeedSlot(slot, AccumulatorNamed(op), EvalExpr(doc, body[op]))
  {
    forall order | Enumerates(order, body.Keys)
      ensures FeedAll(slot, body, doc, order) == FeedSlot(slot, AccumulatorNamed(op), EvalExpr(doc, body[op]))
    {
      OnlyOrder(order, op);
      assert [op][..0] == [];
    }
    assert Enumerates([op], body.Keys);
  }

  lemma OnlyOrder(order: seq<string>, op: string)
    requires Enumerates(order, {op})
    ensures order == [op]
  {
    assert op in order;
    assert order[0] in order && order[|order| - 1] in order;
  }

  /** With one operator the slot is the fold of the group's values. */
  lemma {:induction false} ReachesFold(body: Document, op: string, members: seq<Document>, slot: Slot)
    requires body.Keys == {op}
    ensures var acc := AccumulatorNamed(op);
            Reaches(body, members, slot) <==>
            slot == Slot(Fold(acc, Values(members, body[op])), if acc == Avg then |members| else 0)
    decreases |members|
  {
    hide Feeds, Accumulate;
    var acc, values := AccumulatorNamed(op), Values(members, body[op]);
    if members != [] {
      var n := |members| - 1;
      assert values[..n] == Values(members[..n], body[op]) && values[n] == EvalExpr(members[n], body[op]);
      forall before
        ensures Reaches(body, members[..n], before) <==>
                before == Slot(Fold(acc, values[..n]), if acc == Avg then n else 0)
        ensures Feeds(before, body, members[n], slot) <==> slot == FeedSlot(before, acc, values[n])
      {
        ReachesFold(body, op, members[..n], before);
        OneFeed(before, body, op, members[n], slot);
      }
      var before := Slot(Fold(acc, values[..n]), if acc == Avg then n else 0);
      assert Reaches(body, members[..n], before);
      assert Feeds(before, body, members[n], slot) <==> slot == FeedSlot(before, acc, values[n]);
    }
  }

  lemma OneOperatorResult(members: seq<Document>, body: Document, op: string, v: Value)
    requires members != [] && body.Keys == {op}
    ensures FieldResult(body, members, v) <==> v == FieldValue(Output(AccumulatorNamed(op), body[op]), members)
  {
    hide Reaches;
    var acc, values := AccumulatorNamed(op), Values(members, body[op]);
    var slot := Slot(Fold(acc, values), if acc == Avg then |members| else 0);
    assert Fold(acc, values).Some?;
    ReachesFold(body, op, members, slot);
    forall other | Reaches(body, members, other) ensures other == slot {
      ReachesFold(body, op, members, other);
    }
  }

  /** In every result document a field with one operator is the outcome of that operator
      on the members of the group. */
  lemma ResultShowsOutcome(members: seq<Document>, spec: Document, out: string, doc: Document)
    requires members != [] && IsGroupResult(members, spec, doc) && OneOperator(spec, out)
    ensures out in doc && doc[out] == FieldValue(OutputOf(spec, out), members)
  {
    hide FieldResult, FieldValue;
    var body := AsMap(spec[out]);
    assert body.Keys != {};
    var op :| op in body;
    OnlyOperator(spec, out, op);
    OneOperatorResult(members, body, op, doc[out]);
  }

  /** With several operators in one field the order they are visited in shows: `$sum` and
      `$push` of one value give a number or a list. */
  lemma OperatorsClash(doc: Document)
    ensures var body: Document := map["$sum" := Int32(1), "$push" := Int32(1)];
            FieldResult(body, [doc], Double(1.0)) && FieldResult(body, [doc], Array([Int32(1)]))
  {
    hide FieldResult;
    var body: Document := map["$sum" := Int32(1), "$push" := Int32(1)];
    Clash(body, doc, "$sum", "$push", Int32(1));
  }

  lemma Clash(body: Document, doc: Document, sum: string, push: string, v: Value)
    requires body.Keys == {sum, push} && sum != push && body[sum] == v && body[push] == v && v == Int32(1)
    requires AccumulatorNamed(sum) == Sum && AccumulatorNamed(push) == Push
    ensures FieldResult(body, [doc], Double(1.0)) && FieldResult(body, [doc], Array([Int32(1)]))
  {
    hide FieldResult, AccumulatorNamed;
    FedTwice(body, doc, push, sum);
    FedTwice(body, doc, sum, push);
    assert AsArray(Double(1.0)) + [v] == [v];
  }

  lemma FedTwice(body: Document, doc: Document, first: string, second: string)
    requires body.Keys == {first, second} && first != second
    ensures var slot := FeedSlot(Slot(None, 0), AccumulatorNamed(first), EvalExpr(doc, body[first]));
            FieldResult(body, [doc], Finish(FeedSlot(slot, AccumulatorNamed(second), EvalExpr(doc, body[second]))))
  {
    var start, order := Slot(None, 0), [first, second];
    var slot := FeedSlot(start, AccumulatorNamed(first), EvalExpr(doc, body[first]));
    var next := FeedSlot(slot, AccumulatorNamed(second), EvalExpr(doc, body[second]));
    assert order[..1] == [first] && [first][..0] == [];
    assert FeedAll(start, body, doc, [first]) == slot;
    assert Enumerates(order, body.Keys) && next == FeedAll(start, body, doc, order);
    ReachMore(body, [], doc, start, next);
    assert [] + [doc] == [doc];
  }

  // ----- each accumulator, from the members of its group -----

  function Total(values: seq<Value>): real {
    if values == [] then 0.0 else Total(values[..|values| - 1]) + ToFloat(values[|values| - 1])
  }

  lemma {:induction false} FoldTotals(values: seq<Value>, acc: Accumulator)
    requires acc == Sum || acc == Avg
    requires values != []
    ensures Fold(acc, values) == Some(Double(Total(values)))
    decreases |values|
  {
    var init := values[..|values| - 1];
    if init != [] {
      FoldTotals(init, acc);
    } else {
      assert Fold(acc, init) == None && Total(init) == 0.0;
    }
  }

  /** The group's average times its size is its sum. */
  lemma AverageTimesSize(members: seq<Document>, expr: Value)
    requires members != []
    ensures FieldValue(Output(Avg, expr), members).Double?
    ensures ToFloat(FieldValue(Output(Avg, expr), members)) * (|members| as real) == Total(Values(members, expr))
  {
    hide FieldValue, Fold, Total;
    var values := Values(members, expr);
    assert |values| == |members|;
    FoldTotals(values, Avg);
    AverageOutcome(members, expr);
    DivideAndMultiply(Total(values), |members| as real);
  }

  lemma AverageOutcome(members: seq<Document>, expr: Value)
    requires members != []
    requires Fold(Avg, Values(members, expr)) == Some(Double(Total(Values(members, expr))))
    ensures FieldValue(Output(Avg, expr), members) == Double(Total(Values(members, expr)) / (|members| as real))
  {
  }

  lemma SumOfGroup(members: seq<Document>, expr: Value)
    requires members != []
    ensures FieldValue(Output(Sum, expr), members) == Double(Total(Values(members, expr)))
  {
    assert |Values(members, expr)| == |members|;
    FoldTotals(Values(members, expr), Sum);
  }

  lemma DivideAndMultiply(x: real, n: real)
    requires n > 0.0
    ensures (x / n) * n == x
  {
  }

  /** `best` is among the values and lies on the right side of all of them. */
  ghost predicate IsExtreme(acc: Accumulator, best: Value, values: seq<Value>) {
    && best in values
    && forall i :: 0 <= i < |values| ==> Within(acc, best, values[i])
  }

  ghost predicate Within(acc: Accumulator, best: Value, v: Value) {
    if acc == Min then Compare(best, v) <= 0 else Compare(v, best) <= 0
  }

  /** Within one class `$min` and `$max` are bounds that some member attains. */
  lemma {:induction false} ExtremesAreAttained(acc: Accumulator, values: seq<Value>, numeric: bool)
    requires acc == Min || acc == Max
    requires values != [] && OneClass(values, numeric)
    ensures Fold(acc, values).Some? && IsExtreme(acc, Fold(acc, values).get, values)
    decreases |values|
  {
    var n := |values| - 1;
    var init, v := values[..n], values[n];
    assert values == init + [v];
    assert v in values && forall x :: x in init ==> x in values;
    CompareAgreesWithEqual(v, v);
    if init == [] {
      assert Fold(acc, init) == None;
    } else {
      ExtremesAreAttained(acc, init, numeric);
      var old_ := Fold(acc, init).get;
      assert Fold(acc, values) == Some(Accumulate(acc, Some(old_), v));
      BetterExtreme(acc, old_, v, init, numeric);
    }
  }

  lemma BetterExtreme(acc: Accumulator, old_: Value, v: Value, init: seq<Value>, numeric: bool)
    requires acc == Min || acc == Max
    requires OneClass(init, numeric) && IsNumber(v) == numeric
    requires IsExtreme(acc, old_, init)
    ensures IsExtreme(acc, Accumulate(acc, Some(old_), v), init + [v])
  {
    var best := Accumulate(acc, Some(old_), v);
    CompareAgreesWithEqual(v, v);
    CompareAgreesWithEqual(v, old_);
    forall i | 0 <= i < |init| ensures Within(acc, best, init[i]) {
      assert Within(acc, old_, init[i]) && init[i] in init;
      if best == v && best != old_ {
        if acc == Min {
          CompareTransitive(v, old_, init[i]);
        } else {
          CompareTransitive(init[i], old_, v);
        }
      }
    }
  }

  /** `$push` lists the group's values in input order. */
  lemma {:induction false} PushListsValues(values: seq<Value>)
    requires values != []
    ensures Fold(Push, values) == Some(Array(values))
    decreases |values|
  {
    var n := |values| - 1;
    var init := values[..n];
    assert values == init + [values[n]];
    if init != [] {
      PushListsValues(init);
      assert Fold(Push, values) == Some(Accumulate(Push, Some(Array(init)), values[n]));
    } else {
      assert Fold(Push, values) == Some(Accumulate(Push, None, values[n]));
    }
  }

  /** The kept values are input values, one equal to each of them, and no two equal. */
  ghost predicate CoversOnce(kept: seq<Value>, values: seq<Value>) {
    && (forall v :: v in values ==> ArrayContains(kept, v))
    && (forall v :: v in kept ==> v in values)
    && NoEqualPair(kept)
  }

  /** `$addToSet` keeps a value equal to each input value, only input values, and no
      two equal ones. */
  lemma {:induction false} AddToSetCovers(values: seq<Value>)
    requires values != []
    ensures Fold(AddToSet, values).Some? && Fold(AddToSet, values).get.Array?
    ensures CoversOnce(Fold(AddToSet, values).get.a, values)
    decreases |values|
  {
    hide CoversOnce;
    var n := |values| - 1;
    var init, v := values[..n], values[n];
    assert values == init + [v];
    var before := if init == [] then [] else AsArray(Fold(AddToSet, init).get);
    if init != [] {
      AddToSetCovers(init);
    } else {
      CoversNone();
    }
    CoversMore(before, init, v);
  }

  lemma CoversNone()
    ensures CoversOnce([], [])
  {
  }

  lemma CoversMore(before: seq<Value>, init: seq<Value>, v: Value)
    requires CoversOnce(before, init)
    ensures CoversOnce(if ArrayContains(before, v) then before else before + [v], init + [v])
  {
    CompareAgreesWithEqual(v, v);
    if !ArrayContains(before, v) {
      var kept := before + [v];
      assert kept[|before|] == v;
      forall w | w in init ensures ArrayContains(kept, w) {
        var i :| 0 <= i < |before| && Equal(before[i], w);
        assert kept[i] == before[i];
      }
    }
  }

  // ----- conservation across groups -----

  function Weight(w: Document -> real, docs: seq<Document>): real {
    if docs == [] then 0.0 else Weight(w, docs[..|docs| - 1]) + w(docs[|docs| - 1])
  }

  function GroupWeights(w: Document -> real, docs: seq<Document>, id: Value, order: seq<string>): real {
    if order == [] then 0.0
    else Weight(w, Members(docs, order[0], id)) + GroupWeights(w, docs, id, order[1..])
  }

  /** A document adds its weight to the group of its key and to no other. */
  lemma {:induction false} OneMoreDocument(
      w: Document -> real, docs: seq<Document>, doc: Document, id: Value, order: seq<string>)
    requires forall i, j :: 0 <= i < j < |order| ==> order[i] != order[j]
    ensures GroupWeights(w, docs + [doc], id, order) ==
            GroupWeights(w, docs, id, order) + if GroupKey(doc, id) in order then w(doc) else 0.0
    decreases |order|
  {
    if order != [] {
      OneMoreDocument(w, docs, doc, id, order[1..]);
      MembersAppend(docs, doc, order[0], id);
      var members := Members(docs, order[0], id);
      assert (members + [doc])[..|members|] == members;
      assert order == [order[0]] + order[1..];
      assert order[0] !in order[1..];
    }
  }

  /** Grouping partitions: any quantity added up group by group is the quantity added
      up over the input. */
  lemma {:induction false} GroupingConserves(w: Document -> real, docs: seq<Document>, id: Value, order: seq<string>)
    requires forall i, j :: 0 <= i < j < |order| ==> order[i] != order[j]
    requires forall k :: k in GroupKeys(docs, id) ==> k in order
    ensures GroupWeights(w, docs, id, order) == Weight(w, docs)
    decreases |docs|
  {
    if docs == [] {
      NoWeights(w, id, order);
    } else {
      var n := |docs| - 1;
      assert docs == docs[..n] + [docs[n]];
      KeysAppend(docs[..n], docs[n], id);
      GroupingConserves(w, docs[..n], id, order);
      OneMoreDocument(w, docs[..n], docs[n], id, order);
    }
  }

  lemma {:induction false} NoWeights(w: Document -> real, id: Value, order: seq<string>)
    ensures GroupWeights(w, [], id, order) == 0.0
  {
    if order != [] {
      NoWeights(w, id, order[1..]);
      assert Members([], order[0], id) == [];
    }
  }

  /** The members of all groups, group after group. */
  function Grouped(docs: seq<Document>, id: Value, order: seq<string>): seq<Document> {
    if order == [] then [] else Members(docs, order[0], id) + Grouped(docs, id, order[1..])
  }

  lemma FirstGroup(docs: seq<Document>, id: Value, order: seq<string>)
    requires order != []
    ensures multiset(Grouped(docs, id, order)) ==
            multiset(Members(docs, order[0], id)) + multiset(Grouped(docs, id, order[1..]))
  {
  }

  lemma {:induction false} OneMoreMember(docs: seq<Document>, doc: Document, id: Value, order: seq<string>)
    requires forall i, j :: 0 <= i < j < |order| ==> order[i] != order[j]
    ensures multiset(Grouped(docs + [doc], id, order)) ==
            multiset(Grouped(docs, id, order)) + if GroupKey(doc, id) in order then multiset{doc} else multiset{}
    decreases |order|
  {
    if order != [] {
      OneMoreMember(docs, doc, id, order[1..]);
      MembersAppend(docs, doc, order[0], id);
      FirstGroup(docs, id, order);
      FirstGroup(docs + [doc], id, order);
      assert order == [order[0]] + order[1..];
      assert order[0] !in order[1..];
    }
  }

  /** The groups partition the input: every document is in exactly one of them. */
  lemma {:induction false} GroupsPartition(docs: seq<Document>, id: Value, order: seq<string>)
    requires forall i, j :: 0 <= i < j < |order| ==> order[i] != order[j]
    requires forall k :: k in GroupKeys(docs, id) ==> k in order
    ensures multiset(Grouped(docs, id, order)) == multiset(docs)
    decreases |docs|
  {
    if docs == [] {
      NoMembers(id, order);
    } else {
      var n := |docs| - 1;
      assert docs == docs[..n] + [docs[n]];
      KeysAppend(docs[..n], docs[n], id);
      GroupsPartition(docs[..n], id, order);
      OneMoreMember(docs[..n], docs[n], id, order);
    }
  }

  lemma {:induction false} NoMembers(id: Value, order: seq<string>)
    ensures Grouped([], id, order) == []
  {
    if order != [] {
      NoMembers(id, order[1..]);
      assert Members([], order[0], id) == [];
    }
  }

  function Column(res: seq<Document>, out: string): real {
    if res == [] then 0.0 else ToFloat(Lookup(res[0], out)) + Column(res[1..], out)
  }

  function Evaluated(expr: Value): Document -> real {
    doc => ToFloat(EvalExpr(doc, expr))
  }

  lemma {:induction false} WeightIsTotal(docs: seq<Document>, expr: Value)
    ensures Weight(Evaluated(expr), docs) == Total(Values(docs, expr))
    decreases |docs|
  {
    if docs != [] {
      var n, values := |docs| - 1, Values(docs, expr);
      WeightIsTotal(docs[..n], expr);
      assert values[..n] == Values(docs[..n], expr) && values[n] == EvalExpr(docs[n], expr);
      assert Evaluated(expr)(docs[n]) == ToFloat(values[n]);
      assert Total(values) == Total(values[..n]) + ToFloat(values[n]);
    }
  }

  lemma {:induction false} ColumnIsGroupWeights(
      docs: seq<Document>, spec: Document, out: string, order: seq<string>, res: seq<Document>)
    requires OneOperator(spec, out) && OutputOf(spec, out).acc == Sum
    requires ResultsOf(docs, spec, order, res)
    ensures Column(res, out) == GroupWeights(Evaluated(OutputOf(spec, out).expr), docs, Lookup(spec, "_id"), order)
    decreases |order|
  {
    hide IsGroupResult;
    if order != [] {
      var members := Members(docs, order[0], Lookup(spec, "_id"));
      ColumnIsGroupWeights(docs, spec, out, order[1..], res[1..]);
      assert IsGroupResult(members, spec, res[0]);
      SumIsWeight(members, spec, out, res[0]);
    }
  }

  lemma SumIsWeight(members: seq<Document>, spec: Document, out: string, doc: Document)
    requires members != [] && OneOperator(spec, out) && OutputOf(spec, out).acc == Sum
    requires IsGroupResult(members, spec, doc)
    ensures ToFloat(Lookup(doc, out)) == Weight(Evaluated(OutputOf(spec, out).expr), members)
  {
    hide IsGroupResult, FieldValue, Total, Values;
    var expr := OutputOf(spec, out).expr;
    ResultShowsOutcome(members, spec, out, doc);
    SumOfGroup(members, expr);
    WeightIsTotal(members, expr);
    assert OutputOf(spec, out) == Output(Sum, expr);
  }

  /** A `$sum` column adds up to the sum over the whole input; with the constant 1 it
      counts every document exactly once. */
  lemma SumsConserved(docs: seq<Document>, spec: Document, out: string, res: seq<Document>)
    requires GroupsTo(docs, spec, res)
    requires OneOperator(spec, out) && OutputOf(spec, out).acc == Sum
    ensures Column(res, out) == Total(Values(docs, OutputOf(spec, out).expr))
    ensures OutputOf(spec, out).expr == Int32(1) ==> Column(res, out) == |docs| as real
  {
    var expr := OutputOf(spec, out).expr;
    var id := Lookup(spec, "_id");
    var order :| GroupsInOrder(docs, spec, order, res);
    ColumnIsGroupWeights(docs, spec, out, order, res);
    GroupingConserves(Evaluated(expr), docs, id, order);
    WeightIsTotal(docs, expr);
    if expr == Int32(1) {
      OnesCount(docs);
    }
  }

  lemma {:induction false} OnesCount(docs: seq<Document>)
    ensures Total(Values(docs, Int32(1))) == |docs| as real
    decreases |docs|
  {
    if docs != [] {
      var n := |docs| - 1;
      OnesCount(docs[..n]);
      assert Values(docs, Int32(1))[..n] == Values(docs[..n], Int32(1));
      assert ToFloat(EvalExpr(docs[n], Int32(1))) == 1.0;
    }
  }

  // ----- what the returned documents report -----

  /** What the operator promises about the values of a group. */
  ghost predicate Reports(name: string, v: Value, values: seq<Value>) {
    if name == "$sum" then v == Double(Total(values))
    else if name == "$avg" then v.Double? && v.r * (|values| as real) == Total(values)
    else if name == "$push" then v == Array(values)
    else if name == "$addToSet" then v.Array? && CoversOnce(v.a, values)
    else if name == "$min" then forall numeric :: OneClass(values, numeric) ==> IsExtreme(Min, v, values)
    else if name == "$max" then forall numeric :: OneClass(values, numeric) ==> IsExtreme(Max, v, values)
    else true
  }

  lemma FieldReports(name: string, expr: Value, members: seq<Document>)
    requires members != []
    ensures Reports(name, FieldValue(Output(AccumulatorNamed(name), expr), members), Values(members, expr))
  {
    hide Fold, Total, FieldValue, CoversOnce, IsExtreme;
    match AccumulatorNamed(name)
    case Sum => SumOfGroup(members, expr);
    case Avg => AverageTimesSize(members, expr);
    case Push => CollectedReport(Push, expr, members);
    case AddToSet => CollectedReport(AddToSet, expr, members);
    case Unsupported =>
    case Min => ExtremeReport(Min, expr, members);
    case Max => ExtremeReport(Max, expr, members);
  }

  lemma ExtremeReport(acc: Accumulator, expr: Value, members: seq<Document>)
    requires members != [] && (acc == Min || acc == Max)
    ensures forall numeric :: OneClass(Values(members, expr), numeric) ==>
              IsExtreme(acc, FieldValue(Output(acc, expr), members), Values(members, expr))
  {
    hide IsExtreme;
    var values := Values(members, expr);
    forall numeric | OneClass(values, numeric) ensures IsExtreme(acc, FieldValue(Output(acc, expr), members), values) {
      ExtremesAreAttained(acc, values, numeric);
    }
  }

  lemma CollectedReport(acc: Accumulator, expr: Value, members: seq<Document>)
    requires members != [] && (acc == Push || acc == AddToSet)
    ensures var v, values := FieldValue(Output(acc, expr), members), Values(members, expr);
            if acc == Push then v == Array(values) else v.Array? && CoversOnce(v.a, values)
  {
    hide CoversOnce;
    var values := Values(members, expr);
    assert |values| == |members|;
    PushListsValues(values);
    AddToSetCovers(values);
  }

  /** The documents returned, one for each group, in the order of the keys: the id of the
      group and what the operator reports on the values of its members. */
  ghost predicate EachReports(
      docs: seq<Document>, id: Value, out: string, name: string, expr: Value, order: seq<string>, res: seq<Document>)
  {
    && Enumerates(order, GroupKeys(docs, id)) && |res| == |order|
    && forall i :: 0 <= i < |res| ==>
         var members := Members(docs, order[i], id);
         && members != [] && "_id" in res[i] && res[i]["_id"] == EvalExpr(members[0], id)
         && out in res[i] && Reports(name, res[i][out], Values(members, expr))
  }

  /** Whatever the map orders, the stage returns one document for each group, and in it
      the field `{out: {name: expr}}` reports on all values of that group: the sum, the
      mean, a bound that is attained, the list in input order, or the distinct values. */
  lemma GroupsReport(docs: seq<Document>, spec: Document, out: string, name: string, expr: Value, res: seq<Document>)
    returns (order: seq<string>)
    requires GroupsTo(docs, spec, res)
    requires out in spec && out != "_id" && AsMap(spec[out]) == map[name := expr]
    ensures EachReports(docs, Lookup(spec, "_id"), out, name, expr, order, res)
  {
    hide Reports, IsGroupResult, FieldValue;
    var id := Lookup(spec, "_id");
    assert |AsMap(spec[out])| == 1;
    OnlyOperator(spec, out, name);
    order :| GroupsInOrder(docs, spec, order, res);
    forall i | 0 <= i < |res|
      ensures var members := Members(docs, order[i], id);
              && members != [] && "_id" in res[i] && res[i]["_id"] == EvalExpr(members[0], id)
              && out in res[i] && Reports(name, res[i][out], Values(members, expr))
    {
      var members := Members(docs, order[i], id);
      assert IsGroupResult(members, spec, res[i]);
      IdOfGroup(members, spec, res[i]);
      ResultShowsOutcome(members, spec, out, res[i]);
      FieldReports(name, expr, members);
    }
  }

  lemma IdOfGroup(members: seq<Document>, spec: Document, doc: Document)
    requires members != [] && IsGroupResult(members, spec, doc)
    ensures "_id" in doc && doc["_id"] == EvalExpr(members[0], Lookup(spec, "_id"))
  {
  }

  /** A specification is refused when it names any other operator. */
  lemma RefusedOperators(spec: Document)
    ensures Supported(spec) <==>
            forall out, name :: out in spec && out != "_id" && name in AsMap(spec[out]) ==> name in ACCUMULATORS
  {
    forall name: string ensures AccumulatorNamed(name) == Unsupported <==> name !in ACCUMULATORS {
    }
  }

  const ACCUMULATORS: set<string> := {"$sum", "$avg", "$min", "$max", "$push", "$addToSet"}
}
