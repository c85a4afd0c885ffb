/** Updates (`ApplyUpdate` in internal/mql/mql.go).

    An operator update is a set of steps, one per operator and field; the engine runs
    them in the order its map iterations happen to give.  `Outcome` relates a document
    to every document such an order can produce. */
module Updates {
  import opened Bson
  import opened Enumerations
  import opened Ordering
  import opened StableSort

  datatype Operator =
    | Set | Inc | Mul | Min | Max | Rename | Unset | CurrentDate
    | AddToSet | Push | Pull | Pop | Bit | Unsupported

  function OperatorNamed(name: string): Operator {
    if name == "$set" then Set
    else if name == "$inc" then Inc
    else if name == "$mul" then Mul
    else if name == "$min" then Min
    else if name == "$max" then Max
    else if name == "$rename" then Rename
    else if name == "$unset" then Unset
    else if name == "$currentDate" then CurrentDate
    else if name == "$addToSet" then AddToSet
    else if name == "$push" then Push
    else if name == "$pull" then Pull
    else if name == "$pop" then Pop
    else if name == "$bit" then Bit
    else Unsupported
  }

  /** One field of one operator of an update. */
  datatype Step = Step(name: string, op: Operator, key: string, arg: Value)

  predicate IsStepOf(u: Document, s: Step) {
    s.name in u && s.op == OperatorNamed(s.name) && s.key in AsMap(u[s.name]) && s.arg == AsMap(u[s.name])[s.key]
  }

  predicate OperatorStyle(u: Document) {
    exists name | name in u :: |name| > 0 && name[0] == '$'
  }

  /** Whether an update is applied or refused; the target plays no part in it. */
  predicate Succeeds(u: Document) {
    OperatorStyle(u) ==> forall name | name in u :: OperatorNamed(name) != Unsupported
  }

  // ----- the effect of one step -----

  /** The 32-bit arithmetic of `$bit`, from the old field and the operand. */
  const BitResult: (Value, Value) -> Value

  function SetField(doc: Document, key: string, field: Option<Value>): Document {
    match field
    case Some(v) => doc[key := v]
    case None => doc - {key}
  }

  function AddNumbers(left: Value, right: Value): Value {
    if IsNumber(left) then Double(ToFloat(left) + ToFloat(right)) else right
  }

  /** `$slice`: the first `n`, or the last `-n` when negative. */
  function Slice(items: seq<Value>, n: int): seq<Value> {
    if n >= 0 then Take(n, items) else Last(-n, items)
  }

  /** A document operand is read as modifiers, anything else is appended. */
  function PushInto(items: seq<Value>, operand: Value): seq<Value> {
    var spec := AsMap(operand);
    if spec == map[] then items + [operand]
    else
      var added := items + AsArray(Lookup(spec, "$each"));
      var sorted :=
        if "$sort" in spec then Sort(ValueLess(ToFloat(spec["$sort"]) < 0.0), added) else added;
      if "$slice" in spec then Slice(sorted, ToInt(spec["$slice"])) else sorted
  }

  function PopFrom(items: seq<Value>, operand: Value): seq<Value>
    requires items != []
  {
    if ToFloat(operand) < 0.0 then items[1..] else items[..|items| - 1]
  }

  function Product(x: real, y: real): real {
    x * y
  }

  /** The items that `$pull` keeps. */
  function Differs(v: Value): Value -> bool {
    item => !ValueEquals(item, v)
  }

  /** The new content of the field a step names; `None` is an absent field. */
  function NewField(op: Operator, old_: Option<Value>, arg: Value, now: int): Option<Value> {
    var current := if old_.Some? then old_.get else Null;
    var items := AsArray(current);
    match op
    case Set => Some(arg)
    case Inc => Some(AddNumbers(current, arg))
    case Mul => Some(Double(Product(ToFloat(current), ToFloat(arg))))
    case Min => if old_.None? || Compare(arg, current) < 0 then Some(arg) else old_
    case Max => if old_.None? || Compare(arg, current) > 0 then Some(arg) else old_
    case Unset => None
    case CurrentDate => Some(DateTime(now))
    case AddToSet => Some(Array(if ArrayContains(items, arg) then items else items + [arg]))
    case Push => Some(Array(PushInto(items, arg)))
    case Pull => Some(Array(Filter(Differs(arg), items)))
    case Pop => if items == [] then old_ else Some(Array(PopFrom(items, arg)))
    case Bit => Some(BitResult(current, arg))
    case _ => old_
  }

  function ApplyStep(doc: Document, s: Step, now: int): Document {
    if s.op == Rename then
      if s.key in doc then doc[Sprint(s.arg) := doc[s.key]] - {s.key} else doc
    else SetField(doc, s.key, NewField(s.op, Field(doc, s.key), s.arg, now))
  }

  function Run(doc: Document, steps: seq<Step>, now: int): Document {
    if steps == [] then doc
    else ApplyStep(Run(doc, steps[..|steps| - 1], now), steps[|steps| - 1], now)
  }

  // ----- the outcomes of an update -----

  /** An order in which nested map iterations can visit the steps of `u`: each step
      once, and all fields of one operator together. */
  ghost predicate Linearizes(u: Document, steps: seq<Step>) {
    LinearizesAllBut(u, steps, {})
  }

  /** The same for the operators outside `todo`. */
  ghost predicate LinearizesAllBut(u: Document, steps: seq<Step>, todo: set<string>) {
    && (forall s :: s in steps <==> IsStepOf(u, s) && s.name !in todo)
    && NoRepeats(steps)
    && (forall i, j, k :: 0 <= i < j < k < |steps| && steps[i].name == steps[k].name ==> steps[j].name == steps[i].name)
  }

  /** The steps of one operator with the given fields. */
  ghost predicate IsGroup(group: seq<Step>, name: string, body: Document, keys: set<string>) {
    && (forall s :: s in group <==>
          s.name == name && s.op == OperatorNamed(name) && s.key in keys && s.key in body && s.arg == body[s.key])
    && NoRepeats(group)
  }

  /** A replacement keeps the old `_id` unless it brings its own. */
  function Replacement(doc: Document, u: Document): Document {
    if "_id" in u || Lookup(doc, "_id") == Null then u else u["_id" := doc["_id"]]
  }

  ghost predicate Outcome(doc: Document, u: Document, now: int, next: Document) {
    && Succeeds(u)
    && if u == map[] then next == doc
       else if !OperatorStyle(u) then next == Replacement(doc, u)
       else exists steps :: Linearizes(u, steps) && next == Run(doc, steps, now)
  }

  /** An outcome at some reading of the clock. */
  ghost predicate CanBecome(doc: Document, u: Document, next: Document) {
    exists now :: Outcome(doc, u, now, next)
  }

  /** A document the engine owns and changes in place. */
  class LiveDocument {
    var fields: Document

    constructor (doc: Document)
      ensures fields == doc
    {
      fields := doc;
    }

    /** Fails exactly when the update itself is unsupported; otherwise leaves one of
        the outcomes.  On failure the document may be half changed. */
    method ApplyUpdate(u: Document, now: int) returns (ok: bool)
      modifies this
      ensures ok == Succeeds(u)
      ensures ok ==> Outcome(old(fields), u, now, fields)
    {
      if u == map[] {
        return true;
      }
      if !OperatorStyle(u) {
        Replace(u);
        return true;
      }
      var todo := u.Keys;
      ghost var steps: seq<Step> := [];
      while todo != {}
        invariant todo <= u.Keys
        invariant forall name :: name in u && name !in todo ==> OperatorNamed(name) != Unsupported
        invariant fields == Run(old(fields), steps, now)
        invariant LinearizesAllBut(u, steps, todo)
        decreases todo
      {
        var name :| name in todo;
        todo := todo - {name};
        if OperatorNamed(name) == Unsupported {
          return false;
        }
        ghost var group := ApplyOperator(name, AsMap(u[name]), now);
        RunAppend(old(fields), steps, group, now);
        AppendGroup(u, steps, todo, name, group);
        steps := steps + group;
      }
      return true;
    }

    method Replace(u: Document)
      modifies this
      ensures fields == Replacement(old(fields), u)
    {
      var id := Lookup(fields, "_id");
      fields := u;
      if "_id" !in fields && id != Null {
        fields := fields["_id" := id];
      }
    }

    /** All fields of one operator, in arbitrary order. */
    method ApplyOperator(name: string, body: Document, now: int) returns (ghost group: seq<Step>)
      modifies this
      ensures fields == Run(old(fields), group, now)
      ensures IsGroup(group, name, body, body.Keys)
    {
      var todo := body.Keys;
      group := [];
      while todo != {}
        invariant todo <= body.Keys
        invariant fields == Run(old(fields), group, now)
        invariant IsGroup(group, name, body, body.Keys - todo)
        decreases todo
      {
        var key :| key in todo;
        todo := todo - {key};
        ghost var before := group;
        var step := Step(name, OperatorNamed(name), key, body[key]);
        group := group + [step];
        assert group[..|group| - 1] == before;
        assert forall s :: s in group <==> s in before || s == step;
        fields := ApplyStep(fields, step, now);
      }
    }
  }

  /** `ApplyUpdate` on a clone of the document. */
  method UpdateClone(doc: Document, u: Document, now: int) returns (next: Document, ok: bool)
    ensures ok == Succeeds(u)
    ensures ok ==> CanBecome(doc, u, next)
  {
    var clone := new LiveDocument(doc);
    ok := clone.ApplyUpdate(u, now);
    next := clone.fields;
  }

  lemma AppendGroup(u: Document, steps: seq<Step>, todo: set<string>, name: string, group: seq<Step>)
    requires name in u && name !in todo
    requires LinearizesAllBut(u, steps, todo + {name})
    requires IsGroup(group, name, AsMap(u[name]), AsMap(u[name]).Keys)
    ensures LinearizesAllBut(u, steps + group, todo)
  {
    var all := steps + group;
    assert forall i :: 0 <= i < |steps| ==> all[i] in steps && all[i].name != name;
    assert forall i :: |steps| <= i < |all| ==> all[i] in group && all[i].name == name;
    forall s ensures s in all <==> IsStepOf(u, s) && s.name !in todo {
      assert s in all <==> s in steps || s in group;
    }
  }

  lemma {:induction false} RunAppend(doc: Document, xs: seq<Step>, ys: seq<Step>, now: int)
    ensures Run(doc, xs + ys, now) == Run(Run(doc, xs, now), ys, now)
    decreases |ys|
  {
    if ys == [] {
      assert xs + ys == xs;
    } else {
      var n := |ys| - 1;
      RunAppend(doc, xs, ys[..n], now);
      var all := xs + ys;
      assert all[..|all| - 1] == xs + ys[..n] && all[|all| - 1] == ys[n];
    }
  }

  // ----- every supported update has an outcome -----

  lemma {:induction false} SomeGroup(name: string, body: Document, keys: set<string>) returns (group: seq<Step>)
    requires keys <= body.Keys
    ensures IsGroup(group, name, body, keys)
    decreases keys
  {
    group := [];
    if keys != {} {
      var key :| key in keys;
      var rest := SomeGroup(name, body, keys - {key});
      var step := Step(name, OperatorNamed(name), key, body[key]);
      group := rest + [step];
      assert forall s :: s in group <==> s in rest || s == step;
    }
  }

  /** An order for the operators outside `todo`. */
  lemma {:induction false} SomeLinearization(u: Document, todo: set<string>) returns (steps: seq<Step>)
    ensures LinearizesAllBut(u, steps, todo)
    decreases u.Keys - todo
  {
    steps := [];
    if name :| name in u && name !in todo {
      var others := SomeLinearization(u, todo + {name});
      var group := SomeGroup(name, AsMap(u[name]), AsMap(u[name]).Keys);
      AppendGroup(u, others, todo, name, group);
      steps := others + group;
    }
  }

  lemma OutcomeExists(doc: Document, u: Document, now: int) returns (next: Document)
    requires Succeeds(u)
    ensures Outcome(doc, u, now, next)
  {
    if u == map[] {
      next := doc;
    } else if !OperatorStyle(u) {
      next := Replacement(doc, u);
    } else {
      var steps := SomeLinearization(u, {});
      next := Run(doc, steps, now);
    }
  }

  // ----- confluence -----

  /** The fields a step may read or write. */
  function Touches(s: Step): set<string> {
    if s.op == Rename then {s.key, Sprint(s.arg)} else {s.key}
  }

  ghost predicate DisjointFields(u: Document) {
    forall s, t :: IsStepOf(u, s) && IsStepOf(u, t) && s != t ==> Touches(s) !! Touches(t)
  }

  lemma StepFrame(doc: Document, s: Step, now: int, f: string)
    requires f !in Touches(s)
    ensures Field(ApplyStep(doc, s, now), f) == Field(doc, f)
  {
  }

  lemma StepLocal(d1: Document, d2: Document, s: Step, now: int, f: string)
    requires forall g :: g in Touches(s) ==> Field(d1, g) == Field(d2, g)
    requires f in Touches(s)
    ensures Field(ApplyStep(d1, s, now), f) == Field(ApplyStep(d2, s, now), f)
  {
    assert s.key in Touches(s);
    assert Field(d1, s.key) == Field(d2, s.key);
    assert Field(d1, f) == Field(d2, f);
  }

  ghost predicate Apart(steps: seq<Step>) {
    forall i, j :: 0 <= i < j < |steps| ==> Touches(steps[i]) !! Touches(steps[j])
  }

  /** Steps on separate fields act as if each had seen the original document. */
  lemma {:induction false} RunField(doc: Document, steps: seq<Step>, now: int, i: nat, f: string)
    requires Apart(steps) && i < |steps| && f in Touches(steps[i])
    ensures Field(Run(doc, steps, now), f) == Field(ApplyStep(doc, steps[i], now), f)
    decreases |steps|
  {
    hide ApplyStep;
    var n := |steps| - 1;
    var mid, s := Run(doc, steps[..n], now), steps[n];
    if i == n {
      forall g | g in Touches(s) ensures Field(mid, g) == Field(doc, g) {
        RunKeeps(doc, steps[..n], now, g);
      }
      StepLocal(mid, doc, s, now, f);
    } else {
      StepFrame(mid, s, now, f);
      RunField(doc, steps[..n], now, i, f);
    }
  }

  /** A field that no step touches is left alone. */
  lemma {:induction false} RunKeeps(doc: Document, steps: seq<Step>, now: int, f: string)
    requires forall s :: s in steps ==> f !in Touches(s)
    ensures Field(Run(doc, steps, now), f) == Field(doc, f)
    decreases |steps|
  {
    if steps != [] {
      var n := |steps| - 1;
      RunKeeps(doc, steps[..n], now, f);
      StepFrame(Run(doc, steps[..n], now), steps[n], now, f);
    }
  }

  lemma SameFields(a: Document, b: Document)
    requires forall f :: Field(a, f) == Field(b, f)
    ensures a == b
  {
    forall f ensures f in a <==> f in b {
      assert Field(a, f) == Field(b, f);
    }
    forall f | f in a ensures a[f] == b[f] {
      assert Field(a, f) == Field(b, f);
    }
  }

  /** Two runs of the same steps on separate fields, in any two orders, agree. */
  lemma RunsAgree(doc: Document, xs: seq<Step>, ys: seq<Step>, now: int)
    requires Apart(xs) && Apart(ys)
    requires forall s :: s in xs <==> s in ys
    ensures Run(doc, xs, now) == Run(doc, ys, now)
  {
    forall f ensures Field(Run(doc, xs, now), f) == Field(Run(doc, ys, now), f) {
      if i :| 0 <= i < |xs| && f in Touches(xs[i]) {
        assert xs[i] in ys;
        var j :| 0 <= j < |ys| && ys[j] == xs[i];
        RunField(doc, xs, now, i, f);
        RunField(doc, ys, now, j, f);
      } else {
        RunKeeps(doc, xs, now, f);
        RunKeeps(doc, ys, now, f);
      }
    }
    SameFields(Run(doc, xs, now), Run(doc, ys, now));
  }

  /** When the operators touch separate fields, the order of operators and of fields
      does not matter: the update has one outcome, reached by every order of its steps,
      interleaved across operators or not, and every other field is left alone. */
  lemma UpdateConfluence(doc: Document, u: Document, now: int, next: Document, other: Document)
    requires DisjointFields(u)
    requires Outcome(doc, u, now, next) && Outcome(doc, u, now, other)
    ensures next == other
    ensures OperatorStyle(u) ==>
              forall f :: (forall s :: IsStepOf(u, s) ==> f !in Touches(s)) ==> Field(next, f) == Field(doc, f)
    ensures OperatorStyle(u) ==>
              forall steps :: Apart(steps) && (forall s :: s in steps <==> IsStepOf(u, s)) ==> Run(doc, steps, now) == next
  {
    if OperatorStyle(u) {
      var xs :| Linearizes(u, xs) && next == Run(doc, xs, now);
      var ys :| Linearizes(u, ys) && other == Run(doc, ys, now);
      LinearApart(u, xs);
      LinearApart(u, ys);
      RunsAgree(doc, xs, ys, now);
      forall f | forall s :: IsStepOf(u, s) ==> f !in Touches(s) ensures Field(next, f) == Field(doc, f) {
        RunKeeps(doc, xs, now, f);
      }
      forall steps | Apart(steps) && (forall s :: s in steps <==> IsStepOf(u, s)) ensures Run(doc, steps, now) == next {
        RunsAgree(doc, steps, xs, now);
      }
    }
  }

  lemma LinearApart(u: Document, steps: seq<Step>)
    requires DisjointFields(u) && Linearizes(u, steps)
    ensures Apart(steps)
  {
    forall i, j | 0 <= i < j < |steps| ensures Touches(steps[i]) !! Touches(steps[j]) {
      assert steps[i] in steps && steps[j] in steps;
    }
  }

  lemma RunPair(doc: Document, s: Step, t: Step, now: int)
    ensures Run(doc, [s, t], now) == ApplyStep(ApplyStep(doc, s, now), t, now)
  {
    RunOne(doc, s, now);
    var both := [s, t];
    assert both[..|both| - 1] == [s];
  }

  lemma RunOne(doc: Document, s: Step, now: int)
    ensures Run(doc, [s], now) == ApplyStep(doc, s, now)
  {
    assert [s][..0] == [];
  }

  // ----- updates of one field -----

  function OneField(name: string, field: string, arg: Value): Document {
    map[name := Map(map[field := arg])]
  }

  /** An update with one operator on one field has one outcome: its step. */
  lemma OneFieldOutcome(doc: Document, name: string, field: string, arg: Value, now: int, next: Document)
    requires |name| > 0 && name[0] == '$' && OperatorNamed(name) != Unsupported
    ensures Outcome(doc, OneField(name, field, arg), now, next) <==>
            next == ApplyStep(doc, Step(name, OperatorNamed(name), field, arg), now)
  {
    var u, s := OneField(name, field, arg), Step(name, OperatorNamed(name), field, arg);
    OneFieldStep(name, field, arg);
    RunOne(doc, s, now);
    assert Linearizes(u, [s]);
    if Outcome(doc, u, now, next) {
      var steps :| Linearizes(u, steps) && next == Run(doc, steps, now);
      OnlyStep(u, steps, s);
    }
  }

  lemma OneFieldStep(name: string, field: string, arg: Value)
    requires |name| > 0 && name[0] == '$' && OperatorNamed(name) != Unsupported
    ensures OperatorStyle(OneField(name, field, arg)) && Succeeds(OneField(name, field, arg))
    ensures forall t :: IsStepOf(OneField(name, field, arg), t) <==> t == Step(name, OperatorNamed(name), field, arg)
  {
    var u := OneField(name, field, arg);
    assert name in u;
    assert AsMap(u[name]) == map[field := arg];
  }

  lemma OnlyStep(u: Document, steps: seq<Step>, s: Step)
    requires Linearizes(u, steps)
    requires forall t :: IsStepOf(u, t) <==> t == s
    ensures steps == [s]
  {
    assert s in steps;
    assert steps[0] in steps && steps[|steps| - 1] in steps;
    assert steps[0] == s && steps[|steps| - 1] == s;
  }

  // ----- what an update does to the key -----

  /** The update never names `_id`, neither as a field nor as a rename target. */
  ghost predicate IdSafe(u: Document) {
    if OperatorStyle(u) then forall s :: IsStepOf(u, s) ==> "_id" !in Touches(s) else "_id" !in u
  }

  lemma UpdateKeepsId(doc: Document, u: Document, now: int, next: Document)
    requires IdSafe(u) && Outcome(doc, u, now, next)
    requires Lookup(doc, "_id") != Null
    ensures Field(next, "_id") == Field(doc, "_id")
  {
    if OperatorStyle(u) {
      var steps :| Linearizes(u, steps) && next == Run(doc, steps, now);
      RunKeeps(doc, steps, now, "_id");
    }
  }
}
