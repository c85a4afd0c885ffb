/** The interface through which the command handler uses either store
    (internal/backend/backend.go). */
module Backends {
  import opened Bson
  import opened Collections
  import MemoryStore
  import TidbStore

  type Namespace = TidbStore.Namespace

  datatype Backend = Memory(mem: MemoryStore.Store) | TiDB(tidb: TidbStore.Store)

  function Objects(b: Backend): set<object> {
    if b.Memory? then {b.mem} else {b.tidb}
  }

  /** Where a store keeps a namespace. */
  function Location(b: Backend, ns: Namespace): string {
    if b.Memory? then ns.db + "." + ns.coll else TidbStore.PhysicalTableName(ns)
  }

  function State(b: Backend): map<string, Coll>
    reads Objects(b)
  {
    if b.Memory? then b.mem.collections else b.tidb.tables
  }

  function At(s: map<string, Coll>, location: string): Coll {
    if location in s then s[location] else map[]
  }

  function Contents(b: Backend, ns: Namespace): Coll
    reads Objects(b)
  {
    At(State(b), Location(b, ns))
  }

  function ValidatorOf(b: Backend, ns: Namespace): Document
    reads Objects(b)
  {
    if b.Memory? then b.mem.Validator(Location(b, ns)) else b.tidb.Validator(ns)
  }

  /** In memory, database names without a dot keep namespaces apart. */
  lemma MemoryNamespacesApart(b: Backend, m: Namespace, n: Namespace)
    requires b.Memory? && '.' !in m.db && '.' !in n.db
    ensures Location(b, m) == Location(b, n) <==> m == n
  {
    if Location(b, m) == Location(b, n) {
      assert "." == ['.'];
      TidbStore.FirstSeparator('.', m.db, n.db, m.coll, n.coll);
    }
  }

  /** Nothing changes outside one location. */
  ghost predicate OnlyThere(was: map<string, Coll>, location: string, now: map<string, Coll>) {
    forall other :: other != location ==> At(now, other) == At(was, other)
  }

  // ----- what the operations do, by store -----

  ghost predicate Finds(memory: bool, c: Coll, req: FindRequest, res: Result<seq<Document>>) {
    if memory then res.Ok? && MemFind(c, req, res.value) else TidbFind(c, req, res)
  }

  ghost predicate UpdatesTo(memory: bool, c: Coll, ops: seq<UpdateModel>, next: Coll, res: Result<UpdateResult>) {
    if memory then MemUpdates(c, ops, next, res) else TidbUpdates(c, Scan(c), ops, next, res)
  }

  ghost predicate DeletesTo(memory: bool, c: Coll, ops: seq<DeleteModel>, next: Coll, res: Result<nat>) {
    if memory then res.Ok? && MemDeletes(c, ops, next, res.value)
    else IsReply(TidbDeletes(c, Scan(c), ops), next, res)
  }

  /** A refused insert keeps its first documents in memory and none on TiDB. */
  function Inserted(memory: bool, c: Coll, docs: seq<Document>, validator: Document): Changed {
    if memory then InsertInto(c, docs, validator) else TidbInsert(c, docs, validator)
  }

  // ----- the operations -----

  method Find(b: Backend, ns: Namespace, req: FindRequest) returns (res: Result<seq<Document>>)
    modifies Objects(b)
    ensures OnlyThere(old(State(b)), Location(b, ns), State(b)) && Contents(b, ns) == old(Contents(b, ns))
    ensures forall other :: ValidatorOf(b, other) == old(ValidatorOf(b, other))
    ensures Finds(b.Memory?, Contents(b, ns), req, res)
  {
    if b.Memory? {
      var docs := b.mem.Find(Location(b, ns), req);
      res := Ok(docs);
    } else {
      res := b.tidb.Find(ns, req);
    }
  }

  method Update(b: Backend, ns: Namespace, ops: seq<UpdateModel>, now: int) returns (res: Result<UpdateResult>)
    modifies Objects(b)
    ensures OnlyThere(old(State(b)), Location(b, ns), State(b))
    ensures UpdatesTo(b.Memory?, old(Contents(b, ns)), ops, Contents(b, ns), res)
  {
    if b.Memory? {
      res := b.mem.Update(Location(b, ns), ops, now);
    } else {
      res := b.tidb.Update(ns, ops, now);
    }
  }

  method Delete(b: Backend, ns: Namespace, ops: seq<DeleteModel>) returns (res: Result<nat>)
    modifies Objects(b)
    ensures OnlyThere(old(State(b)), Location(b, ns), State(b))
    ensures DeletesTo(b.Memory?, old(Contents(b, ns)), ops, Contents(b, ns), res)
  {
    if b.Memory? {
      var n := b.mem.Delete(Location(b, ns), ops);
      res := Ok(n);
    } else {
      res := b.tidb.Delete(ns, ops);
    }
  }

  method Insert(b: Backend, ns: Namespace, docs: seq<Document>) returns (res: Result<nat>)
    modifies Objects(b)
    ensures OnlyThere(old(State(b)), Location(b, ns), State(b))
    ensures Changed(Contents(b, ns), res.Ok?) == Inserted(b.Memory?, old(Contents(b, ns)), docs, old(ValidatorOf(b, ns)))
  {
    if b.Memory? {
      res := b.mem.Insert(Location(b, ns), docs);
    } else {
      res := b.tidb.Insert(ns, docs);
    }
  }

  /** The memory store forgets an earlier validator; TiDB keeps it. */
  method CreateCollection(b: Backend, ns: Namespace)
    modifies Objects(b)
    ensures OnlyThere(old(State(b)), Location(b, ns), State(b)) && Contents(b, ns) == old(Contents(b, ns))
    ensures ValidatorOf(b, ns) == if b.Memory? then map[] else old(ValidatorOf(b, ns))
  {
    if b.Memory? {
      b.mem.CreateCollection(Location(b, ns), map[]);
    } else {
      b.tidb.CreateCollection(ns, map[]);
    }
  }

  method DropCollection(b: Backend, ns: Namespace)
    modifies Objects(b)
    ensures State(b) == old(State(b)) - {Location(b, ns)}
    ensures OnlyThere(old(State(b)), Location(b, ns), State(b))
    ensures ValidatorOf(b, ns) == map[]
  {
    if b.Memory? {
      b.mem.DropCollection(Location(b, ns));
    } else {
      b.tidb.DropCollection(ns);
    }
  }
}
