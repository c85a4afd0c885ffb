/** What concurrent requests for the same document can do on TiDB: two increments of one
    counter can count once, and an update can bring back a deleted document
    (internal/backend/tidb/store.go:262-281, 315-330). */
module LostUpdate {
  import opened Bson
  import opened Collections
  import I = Interleaving
  import opened Keys
  import Refinement
  import opened Queries
  import opened StableSort
  import opened Updates

  const INC_N := Step("$inc", Inc, "n", Int32(1))

  const INC := UpdateModel(map[], OneField("$inc", "n", Int32(1)), false, false)
  const CLEAR := DeleteModel(map[], 0)

  const INCREMENT := I.Change(INC)
  const REMOVAL := I.Remove(CLEAR)

  /** A table with one counter. */
  function Counter(n: Value): Document {
    map["_id" := Str("a"), "n" := n]
  }

  function CounterTable(n: Value): Coll {
    map["string:a" := Counter(n)]
  }

  lemma IncCounter(n: Value, doc: Document)
    ensures CanBecome(Counter(n), INC.update, doc) <==> doc == Counter(AddNumbers(n, Int32(1)))
    ensures Succeeds(INC.update)
    ensures DocumentIDKey(Counter(n)) == Ok("string:a")
  {
    OneFieldStep("$inc", "n", Int32(1));
    assert ApplyStep(Counter(n), INC_N, 0) == Counter(AddNumbers(n, Int32(1)));
    forall now ensures Outcome(Counter(n), INC.update, now, doc) <==> doc == Counter(AddNumbers(n, Int32(1))) {
      OneFieldOutcome(Counter(n), "$inc", "n", Int32(1), now, doc);
    }
    assert Outcome(Counter(n), INC.update, 0, doc) <==> doc == Counter(AddNumbers(n, Int32(1)));
    assert "string:" + "a" == "string:a";
  }

  lemma CounterTargets(n: Value)
    ensures Targets(Scan(CounterTable(n)), INC) == [Counter(n)]
  {
    var t := CounterTable(n);
    assert t.Keys == {"string:a"};
    var order := ScanOrder(t.Keys);
    assert order[0] in t.Keys;
    assert order[0] == "string:a";
    assert t.Keys - {order[0]} == {};
    assert Scan(t) == [Counter(n)];
    FilterAll(Passes(Map(map[])), [Counter(n)]);
  }

  lemma IncTable(n: Value, next: Coll, res: Result<UpdateResult>)
    requires TidbUpdate(CounterTable(n), Scan(CounterTable(n)), INC, next, res)
    ensures next == CounterTable(AddNumbers(n, Int32(1)))
  {
    CounterTargets(n);
    FirstReplaceCounter(n, next, res.Ok?);
  }

  lemma FirstReplaceCounter(n: Value, next: Coll, ok: bool)
    requires ReplaceEach(CounterTable(n), [Counter(n)], INC.update, next, ok)
    ensures next == CounterTable(AddNumbers(n, Int32(1)))
  {
    var t := CounterTable(n);
    IncCounter(n, Counter(n));
    var doc := FirstOfReplaces(t, [Counter(n)], INC.update, next, ok);
    IncCounter(n, doc);
    IncCounter(AddNumbers(n, Int32(1)), doc);
    assert [Counter(n)][1..] == [];
    assert next == t["string:a" := doc];
  }

  lemma FirstOfReplaces(t: Coll, targets: seq<Document>, u: Document, next: Coll, ok: bool) returns (doc: Document)
    requires targets != [] && Succeeds(u) && ReplaceEach(t, targets, u, next, ok)
    ensures CanBecome(targets[0], u, doc)
    ensures DocumentIDKey(doc).Ok? ==> ReplaceEach(t[DocumentIDKey(doc).value := doc], targets[1..], u, next, ok)
  {
    doc :|
      && CanBecome(targets[0], u, doc)
      && if DocumentIDKey(doc).Err? then next == t && !ok
         else ReplaceEach(t[DocumentIDKey(doc).value := doc], targets[1..], u, next, ok);
  }

  /** One at a time, in any order, both count. */
  lemma SerialCountsTwice(n: Value, jobs: seq<I.Job>, end: Coll)
    requires |jobs| == 2 && jobs[0].op == INCREMENT && jobs[1].op == INCREMENT
    requires I.Serial(CounterTable(n), jobs, end)
    ensures end == CounterTable(AddNumbers(AddNumbers(n, Int32(1)), Int32(1)))
  {
    hide TidbUpdate;
    var mid := I.FirstSerial(CounterTable(n), jobs, end);
    IncTable(n, mid, jobs[0].answer.update);
    LastIncrement(AddNumbers(n, Int32(1)), jobs[1..], end);
  }

  lemma LastIncrement(n: Value, jobs: seq<I.Job>, end: Coll)
    requires |jobs| == 1 && jobs[0].op == INCREMENT
    requires I.Serial(CounterTable(n), jobs, end)
    ensures end == CounterTable(AddNumbers(n, Int32(1)))
  {
    hide TidbUpdate;
    var next := I.FirstSerial(CounterTable(n), jobs, end);
    assert jobs[1..] == [];
    assert end == next;
    IncTable(n, next, jobs[0].answer.update);
  }

  lemma ClearTable(t: Coll, next: Coll, answer: I.Answer)
    requires KeyInvariant(t) && I.OpRuns(t, REMOVAL, next, answer)
    ensures next == map[]
  {
    hide TidbDeletes, KeyInvariant;
    Refinement.DeleteRefines(t, CLEAR);
    assert MatchSet(t, CLEAR.filter) == t.Keys;
  }

  lemma IncNothing(next: Coll, answer: I.Answer)
    requires I.OpRuns(map[], INCREMENT, next, answer)
    ensures next == map[]
  {
    var none: Coll := map[];
    assert none.Keys == {};
    assert Scan(none) == [];
  }

  lemma CounterKeyed(n: Value)
    ensures KeyInvariant(CounterTable(n))
  {
    IncCounter(n, Counter(n));
  }

  /** One at a time, in any order, a delete of everything is not undone. */
  lemma SerialClears(n: Value, jobs: seq<I.Job>, end: Coll)
    requires |jobs| == 2 && {jobs[0].op, jobs[1].op} == {INCREMENT, REMOVAL}
    requires I.Serial(CounterTable(n), jobs, end)
    ensures end == map[]
  {
    hide I.OpRuns;
    var mid := I.FirstSerial(CounterTable(n), jobs, end);
    var last := I.FirstSerial(mid, jobs[1..], end);
    assert jobs[1..][1..] == [];
    CounterKeyed(n);
    if jobs[0].op == INCREMENT {
      IncRuns(n, mid, jobs[0].answer);
      CounterKeyed(AddNumbers(n, Int32(1)));
      ClearTable(mid, last, jobs[1].answer);
    } else {
      ClearTable(CounterTable(n), mid, jobs[0].answer);
      IncNothing(last, jobs[1].answer);
    }
  }

  lemma IncRuns(n: Value, next: Coll, answer: I.Answer)
    requires I.OpRuns(CounterTable(n), INCREMENT, next, answer)
    ensures next == CounterTable(AddNumbers(n, Int32(1)))
  {
    hide TidbUpdate;
    IncTable(n, next, answer.update);
  }

  // ----- the steps of the schedules -----

  const READ := I.Writing([Counter(Int32(0))], 1)
  const DONE := I.Writing([], 1)

  function Zero(): Coll {
    CounterTable(Int32(0))
  }

  function One(): Coll {
    CounterTable(Double(1.0))
  }

  lemma ReadStep(ops: seq<I.Op>, phases: seq<I.Phase>, i: nat, next: I.State)
    requires |phases| == |ops| && i < |ops| && ops[i] in [INCREMENT, REMOVAL] && phases[i].Waiting?
    requires next == I.State(Zero(), phases[i := READ])
    ensures I.IsStep(ops, I.State(Zero(), phases), i, next)
  {
    CounterTargets(Int32(0));
    FilterAll(Passes(Map(map[])), [Counter(Int32(0))]);
    assert Scan(Zero()) == [Counter(Int32(0))];
  }

  lemma WriteStep(ops: seq<I.Op>, t: Coll, phases: seq<I.Phase>, i: nat, next: I.State)
    requires |phases| == |ops| && i < |ops| && ops[i] == INCREMENT && phases[i] == READ
    requires t.Keys <= {"string:a"} && next == I.State(One(), phases[i := DONE])
    ensures I.IsStep(ops, I.State(t, phases), i, next)
  {
    hide CanBecome, KeyInvariant;
    var s, later := I.State(t, phases), Counter(Double(1.0));
    IncCounter(Int32(0), later);
    IncCounter(Double(1.0), later);
    NotRefused();
    assert Replaceable(Counter(Int32(0)), INC.update, later);
    assert [Counter(Int32(0))][1..] == [];
    assert t["string:a" := later] == One();
    assert next == I.Advance(s, i, t["string:a" := later]);
  }

  lemma RemoveStep(ops: seq<I.Op>, phases: seq<I.Phase>, i: nat, next: I.State)
    requires |phases| == |ops| && i < |ops| && ops[i] == REMOVAL && phases[i] == READ
    requires next == I.State(map[], phases[i := DONE])
    ensures I.IsStep(ops, I.State(Zero(), phases), i, next)
  {
    IncCounter(Int32(0), Counter(Int32(0)));
    assert [Counter(Int32(0))][1..] == [];
    assert Zero() - {"string:a"} == map[];
  }

  lemma NotRefused()
    ensures !Refused(Counter(Int32(0)), INC.update)
  {
    forall next | CanBecome(Counter(Int32(0)), INC.update, next) ensures DocumentIDKey(next).Ok? {
      IncCounter(Int32(0), next);
      IncCounter(Double(1.0), next);
    }
    IncCounter(Int32(0), Counter(Int32(0)));
  }

  // ----- a lost update -----

  /** Both read the counter at 0, then both write 1. */
  function LosingStates(): seq<I.State> {
    [ I.State(Zero(), [I.Waiting, I.Waiting]),
      I.State(Zero(), [READ, I.Waiting]),
      I.State(Zero(), [READ, READ]),
      I.State(One(), [DONE, READ]),
      I.State(One(), [DONE, DONE]) ]
  }

  /** Two increments of the same counter can end at 1, which no serial order allows. */
  lemma UpdatesCanBeLost(jobs: seq<I.Job>)
    requires |jobs| == 2 && jobs[0].op == INCREMENT && jobs[1].op == INCREMENT
    ensures I.IsRun([INCREMENT, INCREMENT], LosingStates(), [0, 1, 0, 1])
    ensures LosingStates()[0] == I.Start(Zero(), 2)
    ensures I.Finished(LosingStates()[4], 2)
    ensures LosingStates()[4].table == One()
    ensures NeverOne(jobs)
  {
    LosingRun();
    NeverEndsAtOne(jobs);
  }

  /** No serial run of the jobs ends with the counter at 1. */
  ghost predicate NeverOne(jobs: seq<I.Job>) {
    forall end :: I.Serial(Zero(), jobs, end) ==> end != One()
  }

  lemma NeverEndsAtOne(jobs: seq<I.Job>)
    requires |jobs| == 2 && jobs[0].op == INCREMENT && jobs[1].op == INCREMENT
    ensures NeverOne(jobs)
  {
    hide I.Serial;
    assert One()["string:a"]["n"] == Double(1.0);
    forall end | I.Serial(Zero(), jobs, end) ensures end != One() {
      SerialCountsTwice(Int32(0), jobs, end);
      assert AddNumbers(AddNumbers(Int32(0), Int32(1)), Int32(1)) == Double(2.0);
      assert end["string:a"]["n"] == Double(2.0);
    }
  }

  lemma LosingRun()
    ensures I.IsRun([INCREMENT, INCREMENT], LosingStates(), [0, 1, 0, 1])
  {
    var states, ops := LosingStates(), [INCREMENT, INCREMENT];
    ReadStep(ops, states[0].phases, 0, states[1]);
    ReadStep(ops, states[1].phases, 1, states[2]);
    WriteStep(ops, Zero(), states[2].phases, 0, states[3]);
    WriteStep(ops, One(), states[3].phases, 1, states[4]);
  }

  // ----- an undone delete -----

  /** Both read the counter, the delete removes it, and the update writes it again. */
  function RevivingStates(): seq<I.State> {
    [ I.State(Zero(), [I.Waiting, I.Waiting]),
      I.State(Zero(), [READ, I.Waiting]),
      I.State(Zero(), [READ, READ]),
      I.State(map[], [READ, DONE]),
      I.State(One(), [DONE, DONE]) ]
  }

  /** An update that has read a document before a concurrent delete removes it brings it
      back: the delete answers that it removed the document, and the document is there.
      In every serial order it is gone. */
  lemma DeletesCanBeUndone(jobs: seq<I.Job>)
    requires |jobs| == 2 && {jobs[0].op, jobs[1].op} == {INCREMENT, REMOVAL}
    ensures I.IsRun([INCREMENT, REMOVAL], RevivingStates(), [0, 1, 1, 0])
    ensures RevivingStates()[0] == I.Start(Zero(), 2)
    ensures I.Finished(RevivingStates()[4], 2)
    ensures I.AnswerOf(REMOVAL, RevivingStates()[4].phases[1]) == I.Deleted(Ok(1))
    ensures RevivingStates()[4].table == One()
    ensures AlwaysCleared(jobs)
  {
    RevivingRun();
    SerialAlwaysClears(jobs);
  }

  /** Every serial run of the jobs empties the table. */
  ghost predicate AlwaysCleared(jobs: seq<I.Job>) {
    forall end :: I.Serial(Zero(), jobs, end) ==> end == map[]
  }

  lemma SerialAlwaysClears(jobs: seq<I.Job>)
    requires |jobs| == 2 && {jobs[0].op, jobs[1].op} == {INCREMENT, REMOVAL}
    ensures AlwaysCleared(jobs)
  {
    hide I.Serial;
    forall end | I.Serial(Zero(), jobs, end) ensures end == map[] {
      SerialClears(Int32(0), jobs, end);
    }
  }

  lemma RevivingRun()
    ensures I.IsRun([INCREMENT, REMOVAL], RevivingStates(), [0, 1, 1, 0])
  {
    var states, ops := RevivingStates(), [INCREMENT, REMOVAL];
    ReadStep(ops, states[0].phases, 0, states[1]);
    ReadStep(ops, states[1].phases, 1, states[2]);
    RemoveStep(ops, states[2].phases, 1, states[3]);
    WriteStep(ops, map[], states[3].phases, 0, states[4]);
  }
}
