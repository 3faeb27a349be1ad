/** An engine in use: steps, restarts and lookups together answer what the plain map of the writes says. */
module Sessions {
  import opened Seqs
  import opened Utf8
  import opened SortedMap
  import opened Commands
  import opened WriteAheadLog
  import BlockCaches
  import opened TableBuilder
  import opened Manifests
  import opened ManagerState
  import opened Durability
  import opened Managers
  import opened Compactions
  import opened EngineState
  import opened Lookups
  import opened Recovery
  import opened Engines

  /** An engine that shows `spec`, survives the next restart, and whose cache is right. */
  ghost predicate Serves(e: Engine, spec: map<string, string>, parts: seq<seq<Command>>)
    reads e, e.tables, e.storage, e.blockCache
  {
    && e.tables.medium == e.setup.medium && e.storage.crc == e.setup.crc && ValidMedium(e.setup.medium)
    && Shows(e.setup, e.State(), spec) && Recovers(e.setup, e.State(), spec, parts)
    && Coherent(e.blockCache.State(), e.tables.State())
  }

  lemma {:induction false} EmptyIsCoherent(s: Manager)
    ensures Coherent(BlockCaches.Empty(64), s)
  {
  }

  /** What a new process finds after this one: the files, and none of the memory. */
  lemma {:induction false} LogLoads(c: Setup, db: Db, spec: map<string, string>, parts: seq<seq<Command>>)
    requires Recovers(c, db, spec, parts)
    ensures LoadAll(c.crc, OpenLog(db.wal.segments)).Some?
  {
    var parts' := ReopenHolds(c.crc, db.wal, parts);
    LoadExact(c.crc, OpenLog(db.wal.segments), parts');
  }

  /** A new process over the files of an engine. */
  method Reopen(e: Engine) returns (r: Engine)
    requires e.storage.crc == e.setup.crc && LoadAll(e.setup.crc, OpenLog(e.storage.segments)).Some?
    ensures fresh(r) && fresh(r.tables) && fresh(r.storage) && fresh(r.blockCache)
    ensures r.setup == e.setup && r.tables.medium == r.setup.medium && r.storage.crc == r.setup.crc
    ensures r.State() == Restart(e.setup, e.State()) && r.blockCache.State() == BlockCaches.Empty(64)
  {
    hide LoadAll, Replay, Replayed, OpenLog;
    var tables := new SSTableManager(e.setup.medium, e.tables.log, e.tables.checkpoint, e.tables.disk, e.tables.nextId);
    var storage := new Storage(e.setup.crc, e.storage.segments);
    r := new Engine(e.setup, tables, storage);
    assert StartsFrom(e.State(), tables.State(), storage.State());
    var ok := r.Start();
  }

  /** One operation on a serving engine; after a restart another object serves. */
  method Perform(e: Engine, op: Op, ghost spec: map<string, string>, ghost parts: seq<seq<Command>>) returns (r: Engine, ghost parts': seq<seq<Command>>)
    requires Serves(e, spec, parts)
    requires SafeStep(e.setup, e.State(), op) && FittingStep(e.setup, e.State(), op) && Admissible(op)
    modifies e, e.tables, e.storage
    ensures Serves(r, Apply(spec, op), parts') && r.setup == e.setup && r.State() == Step(e.setup, old(e.State()), op)
    ensures r == e || (fresh(r) && fresh(r.tables) && fresh(r.storage) && fresh(r.blockCache))
  {
    hide Shows, Recovers, Coherent, SafeStep, FittingStep, Admissible, Flush, CompactTables, Restart, LoadAll, ValidMedium;
    ghost var c, db := e.setup, e.State();
    ServingIsValid(e, spec, parts);
    parts' := StepRecovers(c, db, spec, parts, op);
    if !IsRestart(op) {
      StepKeepsCoherent(c, db, op, e.blockCache.State());
    }
    r := e;
    match op {
      case PutOp(key, value) => e.Put(key, value);
      case DeleteOp(key) => e.Delete(key);
      case FlushOp => FlushNow(e);
      case CompactOp => e.Compact();
      case CrashOp =>
        LogLoads(c, db, spec, parts);
        r := Reopen(e);
        EmptyIsCoherent(r.tables.State());
      case ShutdownOp =>
        ShutdownLoads(c, db, spec, parts);
        e.Shutdown();
        r := Reopen(e);
        EmptyIsCoherent(r.tables.State());
    }
  }

  lemma {:induction false} ServingIsValid(e: Engine, spec: map<string, string>, parts: seq<seq<Command>>)
    requires Serves(e, spec, parts)
    ensures e.Valid()
  {
  }

  /** The log after a shutdown loads too. */
  lemma {:induction false} ShutdownLoads(c: Setup, db: Db, spec: map<string, string>, parts: seq<seq<Command>>)
    requires Recovers(c, db, spec, parts)
    ensures LoadAll(c.crc, OpenLog(Shutdown(c, db).wal.segments)).Some?
  {
    hide OpenLog, LoadAll, PickedL0, HoldsLog, Durable, CheckpointLog, ResetLog;
    if db.memtable == [] {
      LogLoads(c, db, spec, parts);
    } else {
      assert Flush(c, db).wal == db.wal;
      var parts' := ShutdownHolds(c.crc, db.wal, parts);
      LoadExact(c.crc, OpenLog(CheckpointLog(ResetLog(db.wal)).segments), parts');
    }
  }

  /** A flush asked for by hand. */
  method FlushNow(e: Engine)
    requires e.Valid()
    modifies e, e.tables
    ensures e.State() == Flush(e.setup, old(e.State()))
  {
    hide ValidLevels, PickedL0, Flushed;
    if e.memtable != [] {
      ghost var before := e.tables.State();
      var id := e.tables.NextId();
      RelabelLevels(e.setup.medium, before, e.tables.State());
      assert e.tables.State().(nextId := id) == before;
      e.FlushToSSTable(id);
    }
  }

  /** A lookup on a serving engine answers as the plain map, whatever filters and cache do. */
  method Ask(e: Engine, key: string, ghost spec: map<string, string>, ghost parts: seq<seq<Command>>) returns (answer: Option<string>)
    requires Serves(e, spec, parts)
    modifies e.blockCache
    ensures answer == Lookup(spec, key)
    ensures Serves(e, spec, parts)
  {
    hide Shows, Recovers, Coherent, Lookups.Readable, ValidMedium, Lookup;
    ServingIsValid(e, spec, parts);
    RecoversReadable(e.setup, e.State(), spec, parts);
    LookupShows(e.setup, e.State(), spec, key);
    var r := e.GetKey(key);
    answer := Answer(r);
  }

  /** The log of an empty directory, opened once or twice. */
  lemma {:induction false} FreshLog()
    ensures OpenLog(map[]) == Log(map[0 := []], 0, 0, 0) && OpenLog(map[0 := []]) == OpenLog(map[])
  {
    DiscoverExact(map[], 0);
    DiscoverExact(map[0 := []], 0);
  }

  lemma {:induction false} FreshLoads(crc: Checksum)
    ensures LoadAll(crc, Log(map[0 := []], 0, 0, 0)) == Some([])
  {
    NothingParses(crc);
    var files: map<nat, Bytes> := map[0 := []];
    assert LoadFirst(crc, files, 0) == Some([]);
    assert LoadFirst(crc, files, 1) == Both(LoadFirst(crc, files, 0), ParseSegment(crc, files[0]));
    BothNothing(Some([]));
  }

  lemma {:induction false} FreshStart(c: Setup, id: nat)
    ensures LoadAll(c.crc, OpenLog(map[])) == Some([]) && Restart(c, Fresh(id)) == Fresh(id)
  {
    FreshLog();
    FreshLoads(c.crc);
    LoadEmpty();
    NothingReplayed();
    assert ManifestRecords(Fresh(id).tables) == [];
    ReplayNothing(map[]);
    hide OpenLog, LoadAll, Load;
  }

  /** A first process in an empty directory. */
  method Begin(setup: Setup, id: nat) returns (e: Engine, ghost parts: seq<seq<Command>>)
    requires ValidMedium(setup.medium)
    ensures fresh(e) && fresh(e.tables) && fresh(e.storage) && fresh(e.blockCache)
    ensures e.setup == setup && e.State() == Fresh(id) && Serves(e, map[], parts)
  {
    hide Shows, Recovers, Coherent, ValidMedium, LoadAll, OpenLog;
    FreshStart(setup, id);
    var tables := new SSTableManager(setup.medium, "", "", map[], id);
    var storage := new Storage(setup.crc, map[]);
    e := new Engine(setup, tables, storage);
    FreshStarts(id, tables.State(), storage.State());
    var ok := e.Start();
    parts := FreshShows(setup, id);
    EmptyIsCoherent(e.tables.State());
  }

  lemma {:induction false} FreshStarts(id: nat, s: Manager, wal: Log)
    requires s == Manager([], [], [], "", "", 0, map[], id) && wal == OpenLog(map[])
    ensures StartsFrom(Fresh(id), s, wal)
  {
    FreshLog();
    hide OpenLog;
  }

  /** From an empty directory, after any run of operations and restarts, a lookup answers the plain map of
      the writes. */
  method RunThenAsk(setup: Setup, id: nat, ops: seq<Op>, key: string) returns (answer: Option<string>)
    requires ValidMedium(setup.medium) && GoodRun(setup, Fresh(id), ops)
    ensures answer == Lookup(ApplyAll(map[], ops), key)
  {
    hide Serves, GoodRun, SafeStep, FittingStep, Admissible, Apply, Step, ValidMedium, Fresh, Lookup;
    var e, parts := Begin(setup, id);
    for i := 0 to |ops|
      invariant fresh(e) && fresh(e.tables) && fresh(e.storage) && fresh(e.blockCache) && e.setup == setup
      invariant e.State() == Run(setup, Fresh(id), ops[..i]) && Serves(e, ApplyAll(map[], ops[..i]), parts)
    {
      TakeNext(ops, i);
      InitOfSnoc(ops[..i], ops[i]);
      GoodAt(setup, Fresh(id), ops, i);
      e, parts := Perform(e, ops[i], ApplyAll(map[], ops[..i]), parts);
    }
    TakeAll(ops);
    answer := Ask(e, key, ApplyAll(map[], ops), parts);
  }

  lemma {:induction false} GoodAt(c: Setup, db: Db, ops: seq<Op>, i: nat)
    requires GoodRun(c, db, ops) && i < |ops|
    ensures SafeStep(c, Run(c, db, ops[..i]), ops[i]) && FittingStep(c, Run(c, db, ops[..i]), ops[i]) && Admissible(ops[i])
  {
    hide SafeStep, FittingStep, Admissible, Run;
  }
}
