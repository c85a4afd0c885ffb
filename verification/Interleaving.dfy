/** Concurrent updates and deletes on TiDB.  A request reads one snapshot and then writes
    its targets one REPLACE or one DELETE at a time, with no enclosing transaction, so the
    writes of several requests interleave
    (internal/backend/tidb/store.go:256-287, 308-335, 386-401). */
module Interleaving {
  import opened Bson
  import opened Collections
  import opened Enumerations
  import Invariants
  import opened Keys
  import opened Matching
  import opened Refinement
  import opened SingleRequests
  import opened StableSort
  import opened Updates

  // ----- requests -----

  /** A request with one update or one delete. */
  datatype Op = Change(update: UpdateModel) | Remove(delete: DeleteModel)

  datatype Answer = Updated(update: Result<UpdateResult>) | Deleted(delete: Result<nat>)

  function FilterOf(op: Op): Document {
    match op
    case Change(u) => u.filter
    case Remove(d) => d.filter
  }

  function TargetsOf(op: Op, snapshot: seq<Document>): seq<Document> {
    match op
    case Change(u) => Targets(snapshot, u)
    case Remove(d) => Victims(snapshot, d)
  }

  /** The keys a request writes when it runs on `t`. */
  function OpKeys(t: Coll, op: Op): seq<string> {
    match op
    case Change(u) => WriteKeys(t, u)
    case Remove(d) => VictimKeys(t, ScanOrder(t.Keys), d)
  }

  /** A request that runs alone. */
  ghost predicate OpRuns(t: Coll, op: Op, next: Coll, answer: Answer) {
    match op
    case Change(u) => answer.Updated? && TidbUpdate(t, Scan(t), u, next, answer.update)
    case Remove(d) => answer.Deleted? && IsReply(TidbDeletes(t, Scan(t), [d]), next, answer.delete)
  }

  /** What a request can make of a document it writes. */
  ghost predicate Effect(op: Op, before: Document, after: Option<Document>) {
    match op
    case Change(u) => after.Some? && CanBecome(before, u.update, after.get)
    case Remove(_) => after.None?
  }

  // ----- the state machine -----

  datatype Phase =
    | Waiting
    | Writing(todo: seq<Document>, matched: nat)
    | Inserting
    | Inserted(doc: Document)
    | Stopped

  datatype State = State(table: Coll, phases: seq<Phase>)

  /** One step of process `i`: it reads its snapshot, or writes its next target, or
      inserts the document of an upsert that found no target. */
  ghost predicate IsStep(ops: seq<Op>, s: State, i: nat, next: State) {
    && i < |ops| && |s.phases| == |ops|
    && match s.phases[i]
       case Waiting => next == Read(s, i, ops[i])
       case Writing(todo, n) => todo != [] && WriteStep(ops[i], s, i, todo[0], next)
       case Inserting => ops[i].Change? && InsertStep(ops[i].update, s, i, next)
       case Inserted(_) => false
       case Stopped => false
  }

  ghost predicate WriteStep(op: Op, s: State, i: nat, target: Document, next: State)
    requires i < |s.phases| && s.phases[i].Writing? && s.phases[i].todo != []
  {
    match op
    case Change(u) =>
      || (Refused(target, u.update) && next == Stop(s, i))
      || exists doc ::
           Replaceable(target, u.update, doc) && next == Advance(s, i, s.table[DocumentIDKey(doc).value := doc])
    case Remove(_) =>
      var key := DocumentIDKey(target);
      next == if key.Err? then Stop(s, i) else Advance(s, i, s.table - {key.value})
  }

  ghost predicate InsertStep(u: UpdateModel, s: State, i: nat, next: State)
    requires i < |s.phases|
  {
    || (InsertRefused(u) && next == Stop(s, i))
    || exists doc ::
         && CanUpsert(u, doc) && DocumentIDKey(doc).Ok?
         && next == State(s.table[DocumentIDKey(doc).value := doc], s.phases[i := Inserted(doc)])
  }

  ghost predicate InsertRefused(u: UpdateModel) {
    !Succeeds(u.update) || exists doc :: CanUpsert(u, doc) && DocumentIDKey(doc).Err?
  }

  function Read(s: State, i: nat, op: Op): State
    requires i < |s.phases|
  {
    var targets := TargetsOf(op, Scan(s.table));
    var inserts := op.Change? && op.update.upsert && targets == [];
    State(s.table, s.phases[i := if inserts then Inserting else Writing(targets, |targets|)])
  }

  function Stop(s: State, i: nat): State
    requires i < |s.phases|
  {
    State(s.table, s.phases[i := Stopped])
  }

  function Advance(s: State, i: nat, table: Coll): State
    requires i < |s.phases| && s.phases[i].Writing? && s.phases[i].todo != []
  {
    State(table, s.phases[i := Writing(s.phases[i].todo[1..], s.phases[i].matched)])
  }

  function Start(t: Coll, n: nat): State {
    State(t, seq(n, _ => Waiting))
  }

  /** Any schedule of steps. */
  ghost predicate IsRun(ops: seq<Op>, states: seq<State>, schedule: seq<nat>) {
    && |states| == |schedule| + 1
    && forall n :: 0 <= n < |schedule| ==> IsStep(ops, states[n], schedule[n], states[n + 1])
  }

  predicate Over(p: Phase) {
    p.Stopped? || p.Inserted? || (p.Writing? && p.todo == [])
  }

  predicate Finished(s: State, n: nat) {
    |s.phases| == n && forall i | 0 <= i < n :: Over(s.phases[i])
  }

  /** What the request answers. */
  function AnswerOf(op: Op, p: Phase): Answer {
    match op
    case Change(_) => Updated(ResultOf(p))
    case Remove(_) => Deleted(if p.Writing? then Ok(p.matched) else Err("no usable _id"))
  }

  function ResultOf(p: Phase): Result<UpdateResult> {
    match p
    case Writing(_, n) => Ok(UpdateResult(n, n, []))
    case Inserted(doc) => Ok(UpsertResult(doc))
    case _ => Err("update failed")
  }

  // ----- serial runs -----

  /** One request and its answer. */
  datatype Job = Job(op: Op, answer: Answer)

  /** The requests one after the other, each on its own snapshot, with these answers. */
  ghost predicate Serial(t: Coll, jobs: seq<Job>, end: Coll)
    decreases |jobs|
  {
    if jobs == [] then end == t
    else exists mid :: OpRuns(t, jobs[0].op, mid, jobs[0].answer) && Serial(mid, jobs[1..], end)
  }

  lemma FirstSerial(t: Coll, jobs: seq<Job>, end: Coll) returns (mid: Coll)
    requires jobs != [] && Serial(t, jobs, end)
    ensures OpRuns(t, jobs[0].op, mid, jobs[0].answer) && Serial(mid, jobs[1..], end)
  {
    mid :| OpRuns(t, jobs[0].op, mid, jobs[0].answer) && Serial(mid, jobs[1..], end);
  }

  lemma MoreSerial(t: Coll, jobs: seq<Job>, mid: Coll, end: Coll)
    requires jobs != [] && OpRuns(t, jobs[0].op, mid, jobs[0].answer) && Serial(mid, jobs[1..], end)
    ensures Serial(t, jobs, end)
  {
  }

  /** One request on the memory store, which holds its lock for the whole of it. */
  ghost predicate MemOpRuns(c: Coll, op: Op, next: Coll, answer: Answer) {
    match op
    case Change(u) => answer.Updated? && MemUpdates(c, [u], next, answer.update)
    case Remove(d) => answer.Deleted? && answer.delete.Ok? && MemDeletes(c, [d], next, answer.delete.value)
  }

  ghost predicate MemSerial(c: Coll, jobs: seq<Job>, end: Coll)
    decreases |jobs|
  {
    if jobs == [] then end == c
    else exists mid :: MemOpRuns(c, jobs[0].op, mid, jobs[0].answer) && MemSerial(mid, jobs[1..], end)
  }

  lemma MoreMemSerial(c: Coll, jobs: seq<Job>, mid: Coll, end: Coll)
    requires jobs != [] && MemOpRuns(c, jobs[0].op, mid, jobs[0].answer) && MemSerial(mid, jobs[1..], end)
    ensures MemSerial(c, jobs, end)
  {
  }

  /** The processes in the given order, with their answers. */
  function Jobs(ops: seq<Op>, phases: seq<Phase>, order: seq<nat>): seq<Job>
    requires |phases| == |ops|
    requires forall n :: 0 <= n < |order| ==> order[n] < |ops|
  {
    seq(|order|, n requires 0 <= n < |order| => Job(ops[order[n]], AnswerOf(ops[order[n]], phases[order[n]])))
  }

  ghost predicate Orders(order: seq<nat>, n: nat) {
    && NoRepeats(order)
    && (forall m :: 0 <= m < |order| ==> order[m] < n)
    && forall i: nat :: i < n ==> i in order
  }

  // ----- independence -----

  /** The requests write different documents, and no write changes what another request
      writes. */
  ghost predicate Independent(t: Coll, ops: seq<Op>) {
    forall i, j :: 0 <= i < |ops| && 0 <= j < |ops| && i != j ==> LeavesAlone(t, ops[j], ops[i])
  }

  /** No write brings a document under the filter of the other request, and none takes
      one away from it, unless that request takes its first match only. */
  ghost predicate LeavesAlone(t: Coll, writer: Op, other: Op) {
    forall k :: k in OpKeys(t, writer) && k in t ==>
      && k !in OpKeys(t, other)
      && forall after :: Effect(writer, t[k], after) ==> Unnoticed(t[k], after, other)
  }

  ghost predicate Unnoticed(before: Document, after: Option<Document>, op: Op) {
    && (StillMatches(after, op) ==> Matches(before, Map(FilterOf(op))))
    && (Matches(before, Map(FilterOf(op))) ==> StillMatches(after, op) || FirstOnly(op))
  }

  predicate FirstOnly(op: Op) {
    if op.Change? then !op.update.multi else op.delete.limit == 1
  }

  ghost predicate StillMatches(after: Option<Document>, op: Op) {
    after.Some? && Matches(after.get, Map(FilterOf(op)))
  }

  /** Updates keep the keys of the documents they write; upserts find some. */
  ghost predicate Keyed(t: Coll, ops: seq<Op>) {
    forall i :: 0 <= i < |ops| ==> OpKeyed(t, ops[i])
  }

  ghost predicate OpKeyed(t: Coll, op: Op) {
    op.Change? ==>
      && (op.update.upsert ==> OpKeys(t, op) != [])
      && KeepsKeys(t, Elements(OpKeys(t, op)), op.update.update)
  }

  lemma OpKeysMatch(t: Coll, op: Op)
    ensures forall k :: k in OpKeys(t, op) ==> k in t && k in MatchSet(t, FilterOf(op))
    ensures NoRepeats(OpKeys(t, op))
    ensures TargetsOf(op, Scan(t)) == DocsAt(t, OpKeys(t, op))
  {
    MatchingKeysMatch(t, ScanOrder(t.Keys), FilterOf(op));
    match op
    case Change(u) => TargetsByKey(t, ScanOrder(t.Keys), u);
    case Remove(d) => VictimsByKey(t, ScanOrder(t.Keys), d);
  }

  /** The first of the keys, or all of them. */
  function AllOrFirst(op: Op, keys: seq<string>): seq<string> {
    if FirstOnly(op) then Take(1, keys) else keys
  }

  lemma OpKeysInOrder(t: Coll, op: Op)
    ensures OpKeys(t, op) == AllOrFirst(op, ScanOrder(MatchSet(t, FilterOf(op))))
  {
    AllMatchesInOrder(t, FilterOf(op));
    assert OpKeys(t, op) == AllOrFirst(op, MatchingKeys(t, ScanOrder(t.Keys), FilterOf(op)));
  }

  /** The keys are the same when no new key matches, and none of them stops matching, nor
      any other unless only the first one counts. */
  lemma OpKeysByMatches(t0: Coll, t: Coll, op: Op)
    requires MatchSet(t, FilterOf(op)) <= MatchSet(t0, FilterOf(op))
    requires forall k :: k in OpKeys(t0, op) ==> k in MatchSet(t, FilterOf(op))
    requires FirstOnly(op) || MatchSet(t, FilterOf(op)) == MatchSet(t0, FilterOf(op))
    ensures OpKeys(t, op) == OpKeys(t0, op)
  {
    OpKeysInOrder(t, op);
    OpKeysInOrder(t0, op);
    var all, some := MatchSet(t0, FilterOf(op)), MatchSet(t, FilterOf(op));
    if FirstOnly(op) && all != {} {
      assert ScanOrder(all)[0] == OpKeys(t0, op)[0];
      LeastOfSome(all, some);
    }
  }

  lemma LeastOfSome(all: set<string>, some: set<string>)
    requires some <= all && all != {} && ScanOrder(all)[0] in some
    ensures Take(1, ScanOrder(some)) == Take(1, ScanOrder(all))
  {
    LeastUnique(some);
    assert Least(ScanOrder(all)[0], some);
  }

  // ----- rows -----

  function RowAt(t: Coll, k: string): Option<Document> {
    if k in t then Some(t[k]) else None
  }

  function SetRow(t: Coll, k: string, row: Option<Document>): Coll {
    if row.Some? then t[k := row.get] else t - {k}
  }

  lemma SameRows(t: Coll, u: Coll)
    requires forall k :: RowAt(t, k) == RowAt(u, k)
    ensures t == u
  {
    forall k ensures k in t <==> k in u {
      assert RowAt(t, k) == RowAt(u, k);
    }
    forall k | k in t ensures t[k] == u[k] {
      assert RowAt(t, k) == RowAt(u, k);
    }
  }

  /** Every row is the original one or what another request made of it. */
  ghost predicate ChangedByOthers(t0: Coll, ops: seq<Op>, i: nat, t: Coll) {
    && t.Keys <= t0.Keys
    && forall k :: k in t0 && RowAt(t, k) != Some(t0[k]) ==> WrittenByOther(t0, ops, i, k, RowAt(t, k))
  }

  ghost predicate WrittenByOther(t0: Coll, ops: seq<Op>, i: nat, k: string, row: Option<Document>)
    requires k in t0
  {
    exists j :: 0 <= j < |ops| && j != i && k in OpKeys(t0, ops[j]) && Effect(ops[j], t0[k], row)
  }

  lemma SameRow(t0: Coll, ops: seq<Op>, i: nat, t: Coll, k: string)
    requires i < |ops| && Independent(t0, ops) && ChangedByOthers(t0, ops, i, t) && k in t0
    ensures Unnoticed(t0[k], RowAt(t, k), ops[i])
    ensures k in OpKeys(t0, ops[i]) ==> RowAt(t, k) == Some(t0[k])
  {
    if RowAt(t, k) != Some(t0[k]) {
      assert WrittenByOther(t0, ops, i, k, RowAt(t, k));
      var j :| 0 <= j < |ops| && j != i && k in OpKeys(t0, ops[j]) && Effect(ops[j], t0[k], RowAt(t, k));
      assert LeavesAlone(t0, ops[j], ops[i]);
    }
  }

  /** Independent requests do not change each other's targets. */
  lemma SameTargets(t0: Coll, ops: seq<Op>, i: nat, t: Coll)
    requires i < |ops| && Independent(t0, ops) && ChangedByOthers(t0, ops, i, t)
    ensures OpKeys(t, ops[i]) == OpKeys(t0, ops[i])
    ensures forall k :: k in OpKeys(t0, ops[i]) ==> k in t0 && k in t && t[k] == t0[k]
    ensures TargetsOf(ops[i], Scan(t)) == DocsAt(t0, OpKeys(t0, ops[i]))
  {
    hide Matches, Independent, WrittenByOther;
    var op, keys := ops[i], OpKeys(t0, ops[i]);
    OpKeysMatch(t0, op);
    forall k | k in t0
      ensures k in MatchSet(t, FilterOf(op)) ==> k in MatchSet(t0, FilterOf(op))
      ensures k in MatchSet(t0, FilterOf(op)) ==> k in MatchSet(t, FilterOf(op)) || FirstOnly(op)
      ensures k in keys ==> RowAt(t, k) == Some(t0[k])
    {
      SameRow(t0, ops, i, t, k);
      assert StillMatches(RowAt(t, k), op) <==> k in MatchSet(t, FilterOf(op));
    }
    forall k | k in keys ensures k in MatchSet(t, FilterOf(op)) {
      assert RowAt(t, k) == Some(t0[k]);
    }
    OpKeysByMatches(t0, t, op);
    OpKeysMatch(t, op);
    SameDocs(t0, t, keys);
  }

  lemma SameDocs(t0: Coll, t: Coll, keys: seq<string>)
    requires forall k :: k in keys ==> k in t0 && RowAt(t, k) == Some(t0[k])
    ensures forall k :: k in keys ==> k in t && t[k] == t0[k]
    ensures DocsAt(t, keys) == DocsAt(t0, keys)
  {
    forall k | k in keys ensures k in t && t[k] == t0[k] {
      assert RowAt(t, k) == Some(t0[k]);
    }
    assert forall n :: 0 <= n < |keys| ==> keys[n] in keys;
  }

  // ----- the invariant of a run -----

  /** The keys each request writes, when `t0` is the table at the start. */
  function Plan(t0: Coll, ops: seq<Op>): seq<seq<string>> {
    seq(|ops|, i requires 0 <= i < |ops| => OpKeys(t0, ops[i]))
  }

  ghost predicate IsPlan(t0: Coll, ops: seq<Op>, plan: seq<seq<string>>) {
    && |plan| == |ops|
    && (forall i :: 0 <= i < |ops| ==> NoRepeats(plan[i]))
    && (forall i, k :: 0 <= i < |ops| && k in plan[i] ==> k in t0)
    && (forall i, j, k :: 0 <= i < |ops| && 0 <= j < |ops| && i != j && k in plan[i] ==> k !in plan[j])
    && (forall i :: 0 <= i < |ops| && ops[i].Change? ==> KeepsKeys(t0, Elements(plan[i]), ops[i].update.update))
  }

  lemma PlanIsPlan(t0: Coll, ops: seq<Op>)
    requires Independent(t0, ops) && Keyed(t0, ops)
    ensures IsPlan(t0, ops, Plan(t0, ops))
  {
    var plan := Plan(t0, ops);
    forall i | 0 <= i < |ops|
      ensures NoRepeats(plan[i]) && forall k :: k in plan[i] ==> k in t0
    {
      OpKeysMatch(t0, ops[i]);
    }
    forall i, j, k | 0 <= i < |ops| && 0 <= j < |ops| && i != j && k in plan[i] ensures k !in plan[j] {
      assert LeavesAlone(t0, ops[i], ops[j]);
      assert k in t0;
    }
    forall i | 0 <= i < |ops| && ops[i].Change? ensures KeepsKeys(t0, Elements(plan[i]), ops[i].update.update) {
      assert OpKeyed(t0, ops[i]);
    }
  }

  /** The keys a process has written so far. */
  function Written(keys: seq<string>, p: Phase): seq<string> {
    if p.Writing? && |p.todo| <= |keys| then keys[..|keys| - |p.todo|] else []
  }

  ghost predicate PhaseOk(t0: Coll, op: Op, keys: seq<string>, p: Phase)
    requires forall k :: k in keys ==> k in t0
  {
    match p
    case Waiting => true
    case Writing(todo, n) => n == |keys| && |todo| <= |keys| && todo == DocsAt(t0, keys)[|keys| - |todo|..]
    case Inserting => false
    case Inserted(_) => false
    case Stopped => op.Change? && !Succeeds(op.update.update) && keys != []
  }

  function AllWritten(plan: seq<seq<string>>, phases: seq<Phase>): seq<seq<string>>
    requires |phases| == |plan|
  {
    seq(|plan|, i requires 0 <= i < |plan| => Written(plan[i], phases[i]))
  }

  /** A row is what its writer made of it, or as it was. */
  ghost predicate RowOk(before: Document, ops: seq<Op>, written: seq<seq<string>>, k: string, row: Option<Document>)
    requires |written| == |ops|
  {
    && (forall i :: 0 <= i < |ops| && k in written[i] ==> Effect(ops[i], before, row))
    && ((forall i :: 0 <= i < |ops| ==> k !in written[i]) ==> row == Some(before))
  }

  ghost predicate RowsOk(t0: Coll, ops: seq<Op>, written: seq<seq<string>>, t: Coll)
    requires |written| == |ops|
  {
    t.Keys <= t0.Keys && forall k :: k in t0 ==> RowOk(t0[k], ops, written, k, RowAt(t, k))
  }

  ghost predicate Inv(t0: Coll, ops: seq<Op>, plan: seq<seq<string>>, s: State)
    requires IsPlan(t0, ops, plan)
  {
    && |s.phases| == |ops|
    && (forall i :: 0 <= i < |ops| ==> PhaseOk(t0, ops[i], plan[i], s.phases[i]))
    && RowsOk(t0, ops, AllWritten(plan, s.phases), s.table)
  }

  lemma StartInv(t0: Coll, ops: seq<Op>, plan: seq<seq<string>>)
    requires IsPlan(t0, ops, plan)
    ensures Inv(t0, ops, plan, Start(t0, |ops|))
  {
  }

  /** A changed row has a writer. */
  lemma WriterOf(t0: Coll, ops: seq<Op>, plan: seq<seq<string>>, s: State, k: string) returns (j: nat)
    requires IsPlan(t0, ops, plan) && Inv(t0, ops, plan, s)
    requires k in t0 && RowAt(s.table, k) != Some(t0[k])
    ensures j < |ops| && k in plan[j] && !s.phases[j].Waiting?
    ensures Effect(ops[j], t0[k], RowAt(s.table, k))
  {
    var written := AllWritten(plan, s.phases);
    assert RowOk(t0[k], ops, written, k, RowAt(s.table, k));
    j :| 0 <= j < |ops| && k in written[j];
  }

  /** A process that has written nothing sees only what the others wrote. */
  lemma OthersWrote(t0: Coll, ops: seq<Op>, s: State, i: nat)
    requires IsPlan(t0, ops, Plan(t0, ops)) && Inv(t0, ops, Plan(t0, ops), s)
    requires i < |ops| && s.phases[i].Waiting?
    ensures ChangedByOthers(t0, ops, i, s.table)
  {
    forall k | k in t0 && RowAt(s.table, k) != Some(t0[k]) ensures WrittenByOther(t0, ops, i, k, RowAt(s.table, k)) {
      var j := WriterOf(t0, ops, Plan(t0, ops), s, k);
      assert k in OpKeys(t0, ops[j]);
    }
  }

  lemma PhaseChanges(t0: Coll, ops: seq<Op>, plan: seq<seq<string>>, s: State, i: nat, p: Phase, t: Coll)
    requires IsPlan(t0, ops, plan) && Inv(t0, ops, plan, s) && i < |ops|
    requires PhaseOk(t0, ops[i], plan[i], p)
    requires RowsOk(t0, ops, AllWritten(plan, s.phases)[i := Written(plan[i], p)], t)
    ensures Inv(t0, ops, plan, State(t, s.phases[i := p]))
  {
    assert AllWritten(plan, s.phases[i := p]) == AllWritten(plan, s.phases)[i := Written(plan[i], p)];
  }

  /** A change of phase that writes nothing. */
  lemma PhaseKeepsRows(t0: Coll, ops: seq<Op>, plan: seq<seq<string>>, s: State, i: nat, p: Phase)
    requires IsPlan(t0, ops, plan) && Inv(t0, ops, plan, s) && i < |ops|
    requires Written(plan[i], p) == Written(plan[i], s.phases[i]) && PhaseOk(t0, ops[i], plan[i], p)
    ensures Inv(t0, ops, plan, State(s.table, s.phases[i := p]))
  {
    var written := AllWritten(plan, s.phases);
    assert written[i := Written(plan[i], p)] == written;
    PhaseChanges(t0, ops, plan, s, i, p, s.table);
  }

  lemma ReadKeeps(t0: Coll, ops: seq<Op>, s: State, i: nat)
    requires Independent(t0, ops) && Keyed(t0, ops)
    requires IsPlan(t0, ops, Plan(t0, ops)) && Inv(t0, ops, Plan(t0, ops), s)
    requires i < |ops| && s.phases[i].Waiting?
    ensures Inv(t0, ops, Plan(t0, ops), Read(s, i, ops[i]))
  {
    OthersWrote(t0, ops, s, i);
    SameTargets(t0, ops, i, s.table);
    var targets := TargetsOf(ops[i], Scan(s.table));
    assert targets[0..] == targets;
    assert OpKeyed(t0, ops[i]) && |targets| == |OpKeys(t0, ops[i])|;
    PhaseKeepsRows(t0, ops, Plan(t0, ops), s, i, Writing(targets, |targets|));
  }

  /** The next target, its key, and the keys written so far. */
  lemma NextKey(t0: Coll, op: Op, keys: seq<string>, p: Phase) returns (k: string)
    requires forall k :: k in keys ==> k in t0
    requires NoRepeats(keys)
    requires PhaseOk(t0, op, keys, p) && p.Writing? && p.todo != []
    ensures k in keys && p.todo[0] == t0[k] && k !in Written(keys, p)
    ensures Written(keys, Writing(p.todo[1..], p.matched)) == Written(keys, p) + [k]
    ensures PhaseOk(t0, op, keys, Writing(p.todo[1..], p.matched))
  {
    var n := |keys| - |p.todo|;
    k := keys[n];
    assert k in keys;
    assert p.todo[0] == DocsAt(t0, keys)[n];
    assert p.todo[1..] == DocsAt(t0, keys)[n + 1..];
    assert keys[..n + 1] == keys[..n] + [keys[n]];
  }

  /** A document written by an update shows that the update is supported. */
  lemma WrittenSucceeds(t0: Coll, ops: seq<Op>, plan: seq<seq<string>>, s: State, i: nat)
    requires IsPlan(t0, ops, plan) && Inv(t0, ops, plan, s)
    requires i < |ops| && ops[i].Change? && Written(plan[i], s.phases[i]) != []
    ensures Succeeds(ops[i].update.update)
  {
    var written := AllWritten(plan, s.phases);
    var k := written[i][0];
    assert k in plan[i];
    assert RowOk(t0[k], ops, written, k, RowAt(s.table, k));
    assert k in written[i];
  }

  /** Only an unsupported update is refused. */
  lemma RefusedIsUnsupported(t0: Coll, op: Op, keys: seq<string>, p: Phase)
    requires op.Change? && KeepsKeys(t0, Elements(keys), op.update.update)
    requires forall k :: k in keys ==> k in t0
    requires NoRepeats(keys)
    requires PhaseOk(t0, op, keys, p) && p.Writing? && p.todo != [] && Refused(p.todo[0], op.update.update)
    ensures !Succeeds(op.update.update) && keys != []
  {
    var k := NextKey(t0, op, keys, p);
    assert k in Elements(keys);
    assert forall doc :: CanBecome(t0[k], op.update.update, doc) ==> DocumentIDKey(doc) == Ok(k);
  }

  lemma StopKeeps(t0: Coll, ops: seq<Op>, plan: seq<seq<string>>, s: State, i: nat)
    requires IsPlan(t0, ops, plan) && Inv(t0, ops, plan, s)
    requires i < |ops| && ops[i].Change? && s.phases[i].Writing? && s.phases[i].todo != []
    requires Refused(s.phases[i].todo[0], ops[i].update.update)
    ensures Inv(t0, ops, plan, Stop(s, i))
  {
    RefusedIsUnsupported(t0, ops[i], plan[i], s.phases[i]);
    if Written(plan[i], s.phases[i]) != [] {
      WrittenSucceeds(t0, ops, plan, s, i);
    } else {
      PhaseKeepsRows(t0, ops, plan, s, i, Stopped);
    }
  }

  /** A write of the next target, under its own key. */
  lemma AdvanceKeeps(
      t0: Coll, ops: seq<Op>, plan: seq<seq<string>>, s: State, i: nat, k: string, row: Option<Document>)
    requires IsPlan(t0, ops, plan) && Inv(t0, ops, plan, s)
    requires i < |ops| && s.phases[i].Writing? && s.phases[i].todo != []
    requires k in plan[i] && Effect(ops[i], t0[k], row)
    requires var later := Writing(s.phases[i].todo[1..], s.phases[i].matched);
             Written(plan[i], later) == Written(plan[i], s.phases[i]) + [k] && PhaseOk(t0, ops[i], plan[i], later)
    ensures Inv(t0, ops, plan, Advance(s, i, SetRow(s.table, k, row)))
  {
    var later := Writing(s.phases[i].todo[1..], s.phases[i].matched);
    OnlyWriter(t0, ops, plan, s, i, k);
    OneMoreRow(t0, ops, AllWritten(plan, s.phases), s.table, i, k, row);
    PhaseChanges(t0, ops, plan, s, i, later, SetRow(s.table, k, row));
  }

  /** No other process ever writes the key. */
  lemma OnlyWriter(t0: Coll, ops: seq<Op>, plan: seq<seq<string>>, s: State, i: nat, k: string)
    requires IsPlan(t0, ops, plan) && |s.phases| == |ops| && i < |ops| && k in plan[i]
    ensures forall j :: 0 <= j < |ops| && j != i ==> k !in AllWritten(plan, s.phases)[j]
  {
    forall j | 0 <= j < |ops| && j != i ensures k !in AllWritten(plan, s.phases)[j] {
      assert k !in plan[j];
    }
  }

  lemma OneMoreRow(
      t0: Coll, ops: seq<Op>, written: seq<seq<string>>, t: Coll, i: nat, k: string, row: Option<Document>)
    requires i < |ops| && |written| == |ops| && RowsOk(t0, ops, written, t)
    requires k in t0 && Effect(ops[i], t0[k], row)
    requires forall j :: 0 <= j < |ops| && j != i ==> k !in written[j]
    ensures RowsOk(t0, ops, written[i := written[i] + [k]], SetRow(t, k, row))
  {
    var later, next := written[i := written[i] + [k]], SetRow(t, k, row);
    forall l | l in t0 ensures RowOk(t0[l], ops, later, l, RowAt(next, l)) {
      assert RowOk(t0[l], ops, written, l, RowAt(t, l));
      if l == k {
        assert k in later[i];
        assert RowAt(next, l) == row;
      } else {
        assert RowAt(next, l) == RowAt(t, l);
        assert l in later[i] <==> l in written[i];
        assert forall j :: 0 <= j < |ops| ==> (l in later[j] <==> l in written[j]);
      }
    }
  }

  lemma WriteKeeps(t0: Coll, ops: seq<Op>, plan: seq<seq<string>>, s: State, i: nat, next: State)
    requires KeyInvariant(t0) && IsPlan(t0, ops, plan) && Inv(t0, ops, plan, s)
    requires i < |ops| && s.phases[i].Writing? && s.phases[i].todo != []
    requires WriteStep(ops[i], s, i, s.phases[i].todo[0], next)
    requires ops[i].Change? ==> !(Refused(s.phases[i].todo[0], ops[i].update.update) && next == Stop(s, i))
    ensures Inv(t0, ops, plan, next)
  {
    var k := NextKey(t0, ops[i], plan[i], s.phases[i]);
    assert k in Elements(plan[i]);
    assert DocumentIDKey(t0[k]) == Ok(k);
    match ops[i]
    case Change(u) =>
      var doc :|
        && Replaceable(t0[k], u.update, doc)
        && next == Advance(s, i, s.table[DocumentIDKey(doc).value := doc]);
      assert DocumentIDKey(doc) == Ok(k);
      AdvanceKeeps(t0, ops, plan, s, i, k, Some(doc));
    case Remove(_) =>
      AdvanceKeeps(t0, ops, plan, s, i, k, None);
  }

  lemma StepKeeps(t0: Coll, ops: seq<Op>, s: State, i: nat, next: State)
    requires KeyInvariant(t0) && Independent(t0, ops) && Keyed(t0, ops)
    requires IsPlan(t0, ops, Plan(t0, ops)) && Inv(t0, ops, Plan(t0, ops), s)
    requires IsStep(ops, s, i, next)
    ensures Inv(t0, ops, Plan(t0, ops), next)
  {
    assert PhaseOk(t0, ops[i], Plan(t0, ops)[i], s.phases[i]);
    if s.phases[i].Waiting? {
      ReadKeeps(t0, ops, s, i);
    } else if ops[i].Change? && Refused(s.phases[i].todo[0], ops[i].update.update) && next == Stop(s, i) {
      StopKeeps(t0, ops, Plan(t0, ops), s, i);
    } else {
      WriteKeeps(t0, ops, Plan(t0, ops), s, i, next);
    }
  }

  lemma {:induction false} RunKeepsInv(t0: Coll, ops: seq<Op>, states: seq<State>, schedule: seq<nat>, n: nat)
    requires IsRun(ops, states, schedule) && states[0] == Start(t0, |ops|)
    requires KeyInvariant(t0) && Independent(t0, ops) && Keyed(t0, ops)
    requires n < |states|
    ensures IsPlan(t0, ops, Plan(t0, ops)) && Inv(t0, ops, Plan(t0, ops), states[n])
  {
    hide IsStep, Independent, Keyed;
    PlanIsPlan(t0, ops);
    if n == 0 {
      StartInv(t0, ops, Plan(t0, ops));
    } else {
      RunKeepsInv(t0, ops, states, schedule, n - 1);
      StepAt(ops, states, schedule, n - 1);
      StepKeeps(t0, ops, states[n - 1], schedule[n - 1], states[n]);
    }
  }

  lemma StepAt(ops: seq<Op>, states: seq<State>, schedule: seq<nat>, n: nat)
    requires IsRun(ops, states, schedule) && n < |schedule|
    ensures IsStep(ops, states[n], schedule[n], states[n + 1])
  {
  }

  // ----- every interleaving is serial -----

  /** `end` on the given keys, `t0` elsewhere. */
  function Blend(t0: Coll, end: Coll, keys: set<string>): Coll {
    map k | k in t0 && (k in keys ==> k in end) :: if k in keys then end[k] else t0[k]
  }

  lemma BlendRow(t0: Coll, end: Coll, keys: set<string>, k: string)
    requires k in t0
    ensures RowAt(Blend(t0, end, keys), k) == if k in keys then RowAt(end, k) else Some(t0[k])
  {
  }

  /** The table a finished run ends in. */
  ghost predicate Ended(t0: Coll, ops: seq<Op>, plan: seq<seq<string>>, phases: seq<Phase>, end: Coll) {
    && IsPlan(t0, ops, plan) && Inv(t0, ops, plan, State(end, phases))
    && forall i :: 0 <= i < |ops| ==> Over(phases[i])
  }

  lemma EndOfKey(t0: Coll, ops: seq<Op>, plan: seq<seq<string>>, phases: seq<Phase>, end: Coll, i: nat, k: string)
    requires Ended(t0, ops, plan, phases, end) && i < |ops| && k in plan[i]
    ensures k in t0
    ensures phases[i].Writing? ==> Effect(ops[i], t0[k], RowAt(end, k))
    ensures phases[i].Stopped? ==> RowAt(end, k) == Some(t0[k])
  {
    var written := AllWritten(plan, phases);
    assert RowOk(t0[k], ops, written, k, RowAt(end, k));
    if phases[i].Writing? {
      assert plan[i][..|plan[i]|] == plan[i];
      assert written[i] == plan[i];
    } else {
      forall j | 0 <= j < |ops| ensures k !in written[j] {
        assert j != i ==> k !in plan[j];
      }
    }
  }

  /** The keys of the processes that are not in `order`. */
  function DoneKeys(plan: seq<seq<string>>, order: seq<nat>): set<string> {
    set i, k | 0 <= i < |plan| && i !in order && k in plan[i] :: k
  }

  /** `keys` belong to processes other than `i`. */
  ghost predicate KeysOfOthers(plan: seq<seq<string>>, i: nat, keys: set<string>) {
    forall k :: k in keys ==> exists j :: 0 <= j < |plan| && j != i && k in plan[j]
  }

  lemma BlendChanged(t0: Coll, ops: seq<Op>, phases: seq<Phase>, end: Coll, i: nat, done: set<string>)
    requires Ended(t0, ops, Plan(t0, ops), phases, end)
    requires KeysOfOthers(Plan(t0, ops), i, done)
    ensures ChangedByOthers(t0, ops, i, Blend(t0, end, done))
  {
    var t, plan := Blend(t0, end, done), Plan(t0, ops);
    forall k | k in t0 && RowAt(t, k) != Some(t0[k]) ensures WrittenByOther(t0, ops, i, k, RowAt(t, k)) {
      BlendRow(t0, end, done, k);
      var j :| 0 <= j < |plan| && j != i && k in plan[j];
      EndOfKey(t0, ops, plan, phases, end, j, k);
      assert k in OpKeys(t0, ops[j]);
    }
  }

  /** Each document of a blend is an original one or a key-keeping update of it. */
  lemma BlendKeyed(t0: Coll, ops: seq<Op>, plan: seq<seq<string>>, phases: seq<Phase>, end: Coll, done: set<string>)
    requires Ended(t0, ops, plan, phases, end) && KeyInvariant(t0)
    ensures KeyInvariant(Blend(t0, end, done))
  {
    var s, t := State(end, phases), Blend(t0, end, done);
    forall k | k in t ensures DocumentIDKey(t[k]) == Ok(k) {
      BlendRow(t0, end, done, k);
      assert DocumentIDKey(t0[k]) == Ok(k);
      if RowAt(t, k) != Some(t0[k]) {
        var j := WriterOf(t0, ops, plan, s, k);
        assert k in Elements(plan[j]);
      }
    }
  }

  /** What process `i` adds to a blend of the others. */
  lemma BlendRowOf(
      t0: Coll, ops: seq<Op>, plan: seq<seq<string>>, phases: seq<Phase>, end: Coll, i: nat, done: set<string>, k: string)
    requires Ended(t0, ops, plan, phases, end) && k in t0
    requires i < |ops| && KeysOfOthers(plan, i, done)
    ensures var row, later := RowAt(Blend(t0, end, done), k), RowAt(Blend(t0, end, done + Elements(plan[i])), k);
            if k !in plan[i] then later == row
            else row == Some(t0[k]) && if phases[i].Stopped? then later == row else Effect(ops[i], t0[k], later)
  {
    BlendRow(t0, end, done, k);
    BlendRow(t0, end, done + Elements(plan[i]), k);
    if k in plan[i] {
      EndOfKey(t0, ops, plan, phases, end, i, k);
      assert k !in done;
    }
  }

  lemma BlendOfStopped(
      t0: Coll, ops: seq<Op>, plan: seq<seq<string>>, phases: seq<Phase>, end: Coll, i: nat, done: set<string>)
    requires Ended(t0, ops, plan, phases, end)
    requires i < |ops| && KeysOfOthers(plan, i, done) && phases[i].Stopped?
    ensures Blend(t0, end, done + Elements(plan[i])) == Blend(t0, end, done)
  {
    var t, next := Blend(t0, end, done), Blend(t0, end, done + Elements(plan[i]));
    forall k ensures RowAt(next, k) == RowAt(t, k) {
      if k in t0 {
        BlendRowOf(t0, ops, plan, phases, end, i, done, k);
      }
    }
    SameRows(next, t);
  }

  lemma BlendOfChange(
      t0: Coll, ops: seq<Op>, plan: seq<seq<string>>, phases: seq<Phase>, end: Coll, i: nat, done: set<string>)
    requires Ended(t0, ops, plan, phases, end)
    requires i < |ops| && KeysOfOthers(plan, i, done) && phases[i].Writing? && ops[i].Change?
    ensures Rewrites(Blend(t0, end, done), Elements(plan[i]), ops[i].update.update, Blend(t0, end, done + Elements(plan[i])))
  {
    var t, next := Blend(t0, end, done), Blend(t0, end, done + Elements(plan[i]));
    forall k | k in t0
      ensures k in next <==> k in t
      ensures k in t ==> if k in plan[i] then CanBecome(t[k], ops[i].update.update, next[k]) else next[k] == t[k]
    {
      BlendRowOf(t0, ops, plan, phases, end, i, done, k);
    }
  }

  lemma BlendOfRemove(
      t0: Coll, ops: seq<Op>, plan: seq<seq<string>>, phases: seq<Phase>, end: Coll, i: nat, done: set<string>)
    requires Ended(t0, ops, plan, phases, end)
    requires i < |ops| && KeysOfOthers(plan, i, done) && phases[i].Writing? && ops[i].Remove?
    ensures Blend(t0, end, done + Elements(plan[i])) == Blend(t0, end, done) - Elements(plan[i])
  {
    var t, next := Blend(t0, end, done), Blend(t0, end, done + Elements(plan[i]));
    forall k ensures RowAt(next, k) == RowAt(t - Elements(plan[i]), k) {
      if k in t0 {
        BlendRowOf(t0, ops, plan, phases, end, i, done, k);
      }
    }
    SameRows(next, t - Elements(plan[i]));
  }

  /** One process, run alone after some of the others, writes its part of the end. */
  lemma OneSerial(t0: Coll, ops: seq<Op>, phases: seq<Phase>, end: Coll, i: nat, done: set<string>)
    requires KeyInvariant(t0) && Independent(t0, ops) && Keyed(t0, ops)
    requires Ended(t0, ops, Plan(t0, ops), phases, end)
    requires i < |ops| && KeysOfOthers(Plan(t0, ops), i, done)
    ensures var t, next := Blend(t0, end, done), Blend(t0, end, done + Elements(OpKeys(t0, ops[i])));
            OpRuns(t, ops[i], next, AnswerOf(ops[i], phases[i]))
    ensures KeyInvariant(Blend(t0, end, done)) && OpKeyed(Blend(t0, end, done), ops[i])
  {
    var plan, t := Plan(t0, ops), Blend(t0, end, done);
    var keys := plan[i];
    BlendChanged(t0, ops, phases, end, i, done);
    SameTargets(t0, ops, i, t);
    BlendKeyed(t0, ops, plan, phases, end, done);
    assert OpKeyed(t0, ops[i]);
    SameKeyed(t0, t, ops[i]);
    OpKeysMatch(t, ops[i]);
    assert PhaseOk(t0, ops[i], keys, phases[i]);
    if phases[i].Stopped? {
      BlendOfStopped(t0, ops, plan, phases, end, i, done);
      RefusesAll(t, Scan(t), ops[i].update, keys);
    } else if ops[i].Change? {
      BlendOfChange(t0, ops, plan, phases, end, i, done);
      WritesAll(t, Scan(t), ops[i].update, keys, Blend(t0, end, done + Elements(keys)));
    } else {
      BlendOfRemove(t0, ops, plan, phases, end, i, done);
      OneDelete(t, Scan(t), ops[i].delete, keys);
    }
  }

  lemma SameKeyed(t0: Coll, t: Coll, op: Op)
    requires OpKeyed(t0, op) && OpKeys(t, op) == OpKeys(t0, op)
    requires forall k :: k in OpKeys(t0, op) ==> k in t0 && k in t && t[k] == t0[k]
    ensures OpKeyed(t, op)
  {
    if op.Change? {
      var u, keys := op.update.update, Elements(OpKeys(t0, op));
      forall k, doc | k in keys && k in t && CanBecome(t[k], u, doc) ensures DocumentIDKey(doc) == Ok(k) {
        assert t[k] == t0[k];
      }
    }
  }

  lemma NextDone(plan: seq<seq<string>>, order: seq<nat>)
    requires order != [] && NoRepeats(order) && order[0] < |plan|
    ensures DoneKeys(plan, order[1..]) == DoneKeys(plan, order) + Elements(plan[order[0]])
    ensures KeysOfOthers(plan, order[0], DoneKeys(plan, order))
  {
    assert order == [order[0]] + order[1..];
    assert order[0] !in order[1..];
  }

  lemma {:induction false} SerialFrom(t0: Coll, ops: seq<Op>, phases: seq<Phase>, end: Coll, order: seq<nat>)
    requires KeyInvariant(t0) && Independent(t0, ops) && Keyed(t0, ops)
    requires Ended(t0, ops, Plan(t0, ops), phases, end)
    requires NoRepeats(order) && forall n :: 0 <= n < |order| ==> order[n] < |ops|
    ensures Serial(Blend(t0, end, DoneKeys(Plan(t0, ops), order)), Jobs(ops, phases, order), end)
    ensures MemSerial(Blend(t0, end, DoneKeys(Plan(t0, ops), order)), Jobs(ops, phases, order), end)
    decreases |order|
  {
    hide OpRuns, MemOpRuns, Blend;
    var plan, jobs := Plan(t0, ops), Jobs(ops, phases, order);
    var done := DoneKeys(plan, order);
    if order == [] {
      EverythingDone(t0, ops, plan, phases, end);
    } else {
      var rest := DoneKeys(plan, order[1..]);
      var t, mid := Blend(t0, end, done), Blend(t0, end, rest);
      NextDone(plan, order);
      OneSerial(t0, ops, phases, end, order[0], done);
      OneInMemory(t, jobs[0].op, mid, jobs[0].answer);
      SerialFrom(t0, ops, phases, end, order[1..]);
      assert jobs[1..] == Jobs(ops, phases, order[1..]);
      MoreSerial(t, jobs, mid, end);
      MoreMemSerial(t, jobs, mid, end);
    }
  }

  lemma EverythingDone(t0: Coll, ops: seq<Op>, plan: seq<seq<string>>, phases: seq<Phase>, end: Coll)
    requires Ended(t0, ops, plan, phases, end)
    ensures Blend(t0, end, DoneKeys(plan, [])) == end
  {
    forall k | k in t0 && RowAt(end, k) != Some(t0[k]) ensures k in DoneKeys(plan, []) {
      var j := WriterOf(t0, ops, plan, State(end, phases), k);
    }
    forall k ensures RowAt(Blend(t0, end, DoneKeys(plan, [])), k) == RowAt(end, k) {
      if k in t0 {
        BlendRow(t0, end, DoneKeys(plan, []), k);
      }
    }
    SameRows(Blend(t0, end, DoneKeys(plan, [])), end);
  }

  lemma NothingDone(t0: Coll, end: Coll, plan: seq<seq<string>>, order: seq<nat>)
    requires Orders(order, |plan|)
    ensures Blend(t0, end, DoneKeys(plan, order)) == t0
  {
    assert DoneKeys(plan, order) == {};
  }

  /** However the steps of independent updates and deletes interleave, the table they end
      in and the answers they give are those of running them one at a time, in every
      order, on TiDB or on the memory store. */
  lemma InterleavingsAreSerial(
      t0: Coll, ops: seq<Op>, states: seq<State>, schedule: seq<nat>, order: seq<nat>, last: State)
    requires IsRun(ops, states, schedule) && states[0] == Start(t0, |ops|)
    requires last == states[|states| - 1] && Finished(last, |ops|)
    requires KeyInvariant(t0) && Independent(t0, ops) && Keyed(t0, ops)
    requires Orders(order, |ops|)
    ensures Serial(t0, Jobs(ops, last.phases, order), last.table)
    ensures MemSerial(t0, Jobs(ops, last.phases, order), last.table)
  {
    RunKeepsInv(t0, ops, states, schedule, |states| - 1);
    assert Ended(t0, ops, Plan(t0, ops), last.phases, last.table);
    SerialFrom(t0, ops, last.phases, last.table, order);
    NothingDone(t0, last.table, Plan(t0, ops), order);
  }

  // ----- the same on the memory store -----

  /** One request alone on TiDB is one the memory store can run. */
  lemma OneInMemory(t: Coll, op: Op, next: Coll, answer: Answer)
    requires KeyInvariant(t) && (op.Change? ==> UpdateKeepsKeys(t, op.update))
    requires OpRuns(t, op, next, answer)
    ensures MemOpRuns(t, op, next, answer)
    ensures KeyInvariant(next)
  {
    match op
    case Change(u) =>
      Invariants.TidbUpdateKeeps(t, Scan(t), u, next, answer.update);
      ChangeInMemory(t, u, next, answer.update);
    case Remove(d) =>
      Invariants.TidbDeletesKeep(t, Scan(t), [d]);
      DeleteRefines(t, d);
      LoneDelete(t, d, next, answer.delete.value);
  }

  /** Every update of a serial run keeps the keys of the documents it writes. */
  ghost predicate JobsKeyed(t: Coll, jobs: seq<Job>)
    decreases |jobs|
  {
    jobs != [] ==>
      && (jobs[0].op.Change? ==> UpdateKeepsKeys(t, jobs[0].op.update))
      && forall mid :: OpRuns(t, jobs[0].op, mid, jobs[0].answer) ==> JobsKeyed(mid, jobs[1..])
  }

  /** A serial run on TiDB, upserts included, is one on the memory store. */
  lemma {:induction false} SerialInMemory(t: Coll, jobs: seq<Job>, end: Coll)
    requires KeyInvariant(t) && JobsKeyed(t, jobs) && Serial(t, jobs, end)
    ensures MemSerial(t, jobs, end)
    decreases |jobs|
  {
    hide OpRuns, MemOpRuns;
    if jobs != [] {
      var mid := FirstSerial(t, jobs, end);
      OneInMemory(t, jobs[0].op, mid, jobs[0].answer);
      SerialInMemory(mid, jobs[1..], end);
      MoreMemSerial(t, jobs, mid, end);
    }
  }
}
