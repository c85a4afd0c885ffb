/** Schedules of two concurrent requests on TiDB: one in which both read before either
    writes, and what it means that every schedule is serial
    (internal/backend/tidb/store.go:256-335). */
module Schedules {
  import opened Bson
  import opened Collections
  import opened Enumerations
  import opened Interleaving
  import opened Keys
  import opened Refinement
  import opened Updates

  ghost predicate FinishedRun(t: Coll, ops: seq<Op>, states: seq<State>, schedule: seq<nat>, last: State) {
    && IsRun(ops, states, schedule) && states[0] == Start(t, |ops|)
    && last == states[|states| - 1] && Finished(last, |ops|)
  }

  /** Some order of the requests gives the same table and answers. */
  ghost predicate HasSerial(t: Coll, ops: seq<Op>, last: State) {
    && |last.phases| == |ops|
    && exists order :: Orders(order, |ops|) && Serial(t, Jobs(ops, last.phases, order), last.table)
  }

  ghost predicate AlwaysSerial(t: Coll, ops: seq<Op>) {
    forall states, schedule, last :: FinishedRun(t, ops, states, schedule, last) ==> HasSerial(t, ops, last)
  }

  lemma OrdersOfTwo(order: seq<nat>)
    requires Orders(order, 2)
    ensures order == [0, 1] || order == [1, 0]
  {
    var zero: nat, one: nat := 0, 1;
    var members := set x | x in order;
    DistinctCount(order);
    assert zero in order && one in order;
    assert members - {zero} == {one};
    assert |members - {zero}| == 1;
    assert order == [order[0], order[1]];
  }

  /** A finished run has the serial order of the first before the second, or the other. */
  lemma SerialOfTwo(t: Coll, ops: seq<Op>, last: State)
    requires |ops| == 2 && HasSerial(t, ops, last)
    ensures var x, y := Job(ops[0], AnswerOf(ops[0], last.phases[0])), Job(ops[1], AnswerOf(ops[1], last.phases[1]));
            Serial(t, [x, y], last.table) || Serial(t, [y, x], last.table)
  {
    hide Serial, AnswerOf;
    var order :| Orders(order, 2) && Serial(t, Jobs(ops, last.phases, order), last.table);
    OrdersOfTwo(order);
    var x, y := Job(ops[0], AnswerOf(ops[0], last.phases[0])), Job(ops[1], AnswerOf(ops[1], last.phases[1]));
    assert Jobs(ops, last.phases, order) == if order == [0, 1] then [x, y] else [y, x];
  }

  lemma SerialPair(t: Coll, x: Job, y: Job, end: Coll) returns (mid: Coll)
    requires Serial(t, [x, y], end)
    ensures OpRuns(t, x.op, mid, x.answer) && OpRuns(mid, y.op, end, y.answer)
  {
    hide OpRuns;
    var jobs := [x, y];
    mid := FirstSerial(t, jobs, end);
    var last := FirstSerial(mid, jobs[1..], end);
    assert jobs[1..][1..] == [];
  }

  /** Independent requests are serial under every schedule. */
  lemma IndependentAlwaysSerial(t: Coll, ops: seq<Op>)
    requires |ops| == 2 && KeyInvariant(t) && Independent(t, ops) && Keyed(t, ops)
    ensures AlwaysSerial(t, ops)
  {
    forall states, schedule, last | FinishedRun(t, ops, states, schedule, last) ensures HasSerial(t, ops, last) {
      InterleavingsAreSerial(t, ops, states, schedule, [0, 1], last);
    }
  }

  // ----- joining runs -----

  lemma RunCons(ops: seq<Op>, s: State, i: nat, states: seq<State>, schedule: seq<nat>)
    requires IsRun(ops, states, schedule) && IsStep(ops, s, i, states[0])
    ensures IsRun(ops, [s] + states, [i] + schedule)
  {
    var all, plan := [s] + states, [i] + schedule;
    forall n | 0 <= n < |plan| ensures IsStep(ops, all[n], plan[n], all[n + 1]) {
      if n > 0 {
        assert IsStep(ops, states[n - 1], schedule[n - 1], states[n - 1 + 1]);
      }
    }
  }

  lemma RunJoin(ops: seq<Op>, xs: seq<State>, p: seq<nat>, ys: seq<State>, q: seq<nat>)
    requires xs != [] && ys != [] && xs[|xs| - 1] == ys[0]
    requires IsRun(ops, xs, p) && IsRun(ops, ys, q)
    ensures IsRun(ops, xs + ys[1..], p + q)
    ensures var all := xs + ys[1..]; all[0] == xs[0] && all[|all| - 1] == ys[|ys| - 1]
  {
    hide IsStep;
    var all, plan := xs + ys[1..], p + q;
    forall n | 0 <= n < |plan| ensures IsStep(ops, all[n], plan[n], all[n + 1]) {
      if n < |p| {
        assert IsStep(ops, xs[n], p[n], xs[n + 1]);
      } else {
        var m := n - |p|;
        assert IsStep(ops, ys[m], q[m], ys[m + 1]);
      }
    }
  }

  // ----- the writes of one process, one after the other -----

  ghost predicate Distinct(t: Coll, keys: seq<string>) {
    NoRepeats(keys) && forall k :: k in keys ==> k in t
  }

  /** Every write of the request under these keys goes through. */
  ghost predicate Writable(t: Coll, op: Op, keys: seq<string>) {
    op.Change? ==> Succeeds(op.update.update) && KeepsKeys(t, Elements(keys), op.update.update)
  }

  lemma OneWrite(ops: seq<Op>, s: State, i: nat, t: Coll, k: string) returns (row: Option<Document>)
    requires i < |ops| && |s.phases| == |ops| && s.phases[i].Writing? && s.phases[i].todo != []
    requires k in t && s.phases[i].todo[0] == t[k] && DocumentIDKey(t[k]) == Ok(k)
    requires Writable(t, ops[i], [k])
    ensures Effect(ops[i], t[k], row) && IsStep(ops, s, i, Advance(s, i, SetRow(s.table, k, row)))
  {
    match ops[i]
    case Change(u) =>
      var doc := OutcomeExists(t[k], u.update, 0);
      assert CanBecome(t[k], u.update, doc);
      assert k in Elements([k]) && DocumentIDKey(doc) == Ok(k);
      assert Replaceable(t[k], u.update, doc);
      row := Some(doc);
    case Remove(_) =>
      row := None;
  }

  lemma RestWritable(t: Coll, op: Op, keys: seq<string>)
    requires keys != [] && Writable(t, op, keys)
    ensures Writable(t, op, [keys[0]]) && Writable(t, op, keys[1..])
  {
    assert keys[0] in Elements(keys) && Elements(keys[1..]) <= Elements(keys);
  }

  lemma {:induction false} Drain(ops: seq<Op>, s: State, i: nat, t: Coll, keys: seq<string>, m: nat)
    returns (states: seq<State>, schedule: seq<nat>, end: Coll)
    requires i < |ops| && |s.phases| == |ops|
    requires KeyInvariant(t) && Distinct(t, keys) && Writable(t, ops[i], keys)
    requires s.phases[i] == Writing(DocsAt(t, keys), m)
    ensures IsRun(ops, states, schedule) && states != [] && states[0] == s
    ensures states[|states| - 1] == State(end, s.phases[i := Writing([], m)])
    ensures forall k :: if k in keys then Effect(ops[i], t[k], RowAt(end, k)) else RowAt(end, k) == RowAt(s.table, k)
    decreases |keys|
  {
    hide IsStep, Effect, Writable;
    if keys == [] {
      states, schedule, end := [s], [], s.table;
      assert s.phases[i] == Writing([], m);
      assert s.phases[i := Writing([], m)] == s.phases;
    } else {
      var k, rest := keys[0], keys[1..];
      FirstOfKeys(t, keys);
      RestWritable(t, ops[i], keys);
      assert DocumentIDKey(t[k]) == Ok(k);
      var row := OneWrite(ops, s, i, t, k);
      var next := Advance(s, i, SetRow(s.table, k, row));
      assert keys == [k] + rest;
      var later, plan;
      later, plan, end := Drain(ops, next, i, t, rest, m);
      RunCons(ops, s, i, later, plan);
      states, schedule := [s] + later, [i] + plan;
      SetRowAt(s.table, k, row);
      assert next.phases[i := Writing([], m)] == s.phases[i := Writing([], m)];
    }
  }

  lemma SetRowAt(t: Coll, k: string, row: Option<Document>)
    ensures forall l :: RowAt(SetRow(t, k, row), l) == if l == k then row else RowAt(t, l)
  {
  }

  // ----- both read, then one writes, then the other -----

  /** The request finds what it writes and inserts nothing. */
  ghost predicate Ready(t: Coll, op: Op) {
    Writable(t, op, OpKeys(t, op)) && (op.Change? ==> !op.update.upsert || OpKeys(t, op) != [])
  }

  function AfterRead(t: Coll, op: Op): Phase {
    Writing(TargetsOf(op, Scan(t)), |OpKeys(t, op)|)
  }

  function AfterWrite(t: Coll, op: Op): Phase {
    Writing([], |OpKeys(t, op)|)
  }

  lemma BothRead(t: Coll, ops: seq<Op>) returns (states: seq<State>, schedule: seq<nat>)
    requires |ops| == 2 && Ready(t, ops[0]) && Ready(t, ops[1])
    ensures IsRun(ops, states, schedule) && |states| == 3 && states[0] == Start(t, 2)
    ensures states[2] == State(t, [AfterRead(t, ops[0]), AfterRead(t, ops[1])])
  {
    hide Scan, OpKeys, TargetsOf, Writable;
    OneRead(t, ops[0]);
    OneRead(t, ops[1]);
    var s0 := Start(t, 2);
    var s1 := Read(s0, 0, ops[0]);
    var s2 := Read(s1, 1, ops[1]);
    states, schedule := [s0, s1, s2], [0, 1];
  }

  lemma OneRead(t: Coll, op: Op)
    requires Ready(t, op)
    ensures |TargetsOf(op, Scan(t))| == |OpKeys(t, op)|
    ensures op.Change? && op.update.upsert ==> TargetsOf(op, Scan(t)) != []
  {
    OpKeysMatch(t, op);
  }

  /** What the table holds under `k` after `first` and then `second` have written what
      they read in `t`. */
  ghost predicate LastWins(t: Coll, first: Op, second: Op, k: string, row: Option<Document>) {
    if k in OpKeys(t, second) then k in t && Effect(second, t[k], row)
    else if k in OpKeys(t, first) then k in t && Effect(first, t[k], row)
    else row == RowAt(t, k)
  }

  /** Both read; process `i` writes all its documents, and then the other does. */
  lemma OneAfterTheOther(t: Coll, ops: seq<Op>, i: nat)
    returns (states: seq<State>, schedule: seq<nat>, last: State)
    requires |ops| == 2 && i < 2 && KeyInvariant(t) && Ready(t, ops[0]) && Ready(t, ops[1])
    ensures FinishedRun(t, ops, states, schedule, last)
    ensures last.phases == [AfterWrite(t, ops[0]), AfterWrite(t, ops[1])]
    ensures forall k :: LastWins(t, ops[i], ops[1 - i], k, RowAt(last.table, k))
  {
    hide IsRun, OpKeys, Writable, Effect, TargetsOf;
    var read, first := BothRead(t, ops);
    states, schedule, last := BothWrite(t, ops, i, read[2]);
    RunJoin(ops, read, first, states, schedule);
    states, schedule := read + states[1..], first + schedule;
  }

  lemma BothWrite(t: Coll, ops: seq<Op>, i: nat, s: State)
    returns (states: seq<State>, schedule: seq<nat>, last: State)
    requires |ops| == 2 && i < 2 && KeyInvariant(t) && Ready(t, ops[0]) && Ready(t, ops[1])
    requires s == State(t, [AfterRead(t, ops[0]), AfterRead(t, ops[1])])
    ensures IsRun(ops, states, schedule) && states != [] && states[0] == s
    ensures last == states[|states| - 1]
    ensures last.phases == [AfterWrite(t, ops[0]), AfterWrite(t, ops[1])]
    ensures forall k :: LastWins(t, ops[i], ops[1 - i], k, RowAt(last.table, k))
  {
    hide IsRun, OpKeys, Writable, Effect, RowAt, TargetsOf, DocsAt;
    var j := 1 - i;
    var mine, others := OpKeys(t, ops[i]), OpKeys(t, ops[j]);
    OpKeysMatch(t, ops[i]);
    OpKeysMatch(t, ops[j]);
    var xs, p, mid := Drain(ops, s, i, t, mine, |mine|);
    var ys, q, end := Drain(ops, xs[|xs| - 1], j, t, others, |others|);
    RunJoin(ops, xs, p, ys, q);
    states, schedule, last := xs + ys[1..], p + q, ys[|ys| - 1];
    forall k ensures LastWins(t, ops[i], ops[j], k, RowAt(last.table, k)) {
      assert if k in others then Effect(ops[j], t[k], RowAt(end, k)) else RowAt(end, k) == RowAt(mid, k);
      assert if k in mine then Effect(ops[i], t[k], RowAt(mid, k)) else RowAt(mid, k) == RowAt(t, k);
    }
  }
}
