/** What the engine does to the raw map by itself, over whole runs: what the SQL layer allows for. */
module EngineSettles {
  import opened Seqs
  import opened SortedMap
  import opened Records
  import opened Commands
  import opened WriteAheadLog
  import opened TableBuilder
  import opened Durability
  import opened Compactions
  import opened EngineState
  import opened Recovery
  import opened CrashAnswers
  import opened CrashRuns
  import opened SqlState
  import opened SqlSteps

  /** A flush, with the merge it may start, leaves the raw map as it is. */
  lemma {:induction false} FlushRaw(c: Setup, db: Db, spec: map<string, string>)
    requires ValidMedium(c.medium) && Shows(c, db, spec) && FlushIsSafe(c, db)
    ensures RawDb(Flush(c, db)) == RawDb(db)
  {
    hide ValidLevels, PickedL0, PickIsSafe, Raw, Live, Flushed, Contents;
    if db.memtable != [] {
      FlushedKeeps(c.medium, db.tables, db.memtable);
      PickedL0Keeps(c.medium, Flushed(c.medium, db.tables, db.memtable));
      NothingOver(RawDb(db));
    }
  }

  /** A background turn may drop tombstones. */
  lemma {:induction false} CompactRaw(c: Setup, db: Db, spec: map<string, string>)
    requires ValidMedium(c.medium) && Shows(c, db, spec) && PickIsSafe(db.tables.l0)
    ensures RawDb(CompactTables(c, db)).Keys <= RawDb(db).Keys
  {
    hide ValidLevels, PickedL0, PickedL1, PickIsSafe, Raw, Contents;
    PickedL0Keeps(c.medium, db.tables);
    PickedL1Within(c.medium, PickedL0(c.medium, db.tables));
  }

  /** A restart may bring tombstones back that the log still has. */
  lemma {:induction false} RestartRaw(c: Setup, db: Db, spec: map<string, string>, parts: seq<seq<Command>>)
    requires Shows(c, db, spec) && Recovers(c, db, spec, parts)
    ensures RawDb(Restart(c, db)).Keys <= RawDb(db).Keys + Logged(parts).Keys
  {
    OpenedUp(c, db, spec, parts);
    hide Shows, Recovers, ValidLevels, Durable, HoldsLog, Raw, Contents, Logged, Restart, Reopened;
    RestartLoads(c, db, parts);
    ReopenedKeeps(c.medium, db.tables);
  }

  lemma {:induction false} ShutdownRaw(c: Setup, db: Db, spec: map<string, string>, parts: seq<seq<Command>>)
    requires ValidMedium(c.medium) && Shows(c, db, spec) && Recovers(c, db, spec, parts) && FlushIsSafe(c, db) && FlushFits(c, db)
    ensures RawDb(Restart(c, Shutdown(c, db))).Keys <= RawDb(db).Keys + Logged(parts).Keys
  {
    if db.memtable == [] {
      RestartRaw(c, db, spec, parts);
    } else {
      ShownIsSorted(c, db, spec);
      hide Shows, Recovers, Flush, Restart, CheckpointLog, ResetLog, FlushIsSafe, FlushFits, RawDb, Sorted, Logged, ValidMedium;
      FlushRaw(c, db, spec);
      FlushShows(c, db, spec);
      FlushRecovers(c, db, spec, parts);
      FlushEmpties(c, db);
      ClearedRaw(c, Flush(c, db), spec, parts);
    }
  }

  lemma {:induction false} FlushEmpties(c: Setup, db: Db)
    ensures Flush(c, db).memtable == [] && Flush(c, db).wal == db.wal
  {
    hide PickedL0, Flushed;
  }

  lemma {:induction false} ClearedRaw(c: Setup, f: Db, spec: map<string, string>, parts: seq<seq<Command>>)
    requires Shows(c, f, spec) && Recovers(c, f, spec, parts) && f.memtable == []
    ensures RawDb(Restart(c, f.(wal := CheckpointLog(ResetLog(f.wal))))) == RawDb(f)
  {
    OpenedUp(c, f, spec, parts);
    hide Shows, Recovers, ValidLevels, Durable, HoldsLog, Raw, Contents, Logged, Reopened, CheckpointLog, ResetLog, LoadAll, OpenLog, Joined, Replayed;
    var wal := CheckpointLog(ResetLog(f.wal));
    var parts' := ShutdownHolds(c.crc, f.wal, parts);
    LoadExact(c.crc, OpenLog(wal.segments), parts');
    NothingReplayed();
    EmptiedTables(c, f, wal);
    ReopenedKeeps(c.medium, f.tables);
  }

  lemma {:induction false} EmptiedTables(c: Setup, f: Db, wal: Log)
    requires LoadAll(c.crc, OpenLog(wal.segments)) == Some([])
    ensures Restart(c, f.(wal := wal)) == Db(Replayed([]), Reopened(f.tables), OpenLog(wal.segments))
  {
    hide LoadAll, OpenLog, Replayed;
  }

  predicate IsWrite(op: Op) {
    op.PutOp? || op.DeleteOp?
  }

  /** Every step that is no write shows the same and adds no key that is not in the log. */
  lemma {:induction false} StepSettles(c: Setup, db: Db, spec: map<string, string>, parts: seq<seq<Command>>, op: Op)
    requires ValidMedium(c.medium) && Shows(c, db, spec) && Recovers(c, db, spec, parts) && !IsWrite(op)
    requires SafeStep(c, db, op) && FittingStep(c, db, op)
    ensures RawDb(Step(c, db, op)).Keys <= RawDb(db).Keys + Logged(parts).Keys
  {
    hide Shows, Recovers, Flush, CompactTables, Restart, Shutdown, FlushIsSafe, FlushFits, PickIsSafe, RawDb, Logged, ValidMedium;
    match op
    case FlushOp => FlushRaw(c, db, spec);
    case CompactOp => CompactRaw(c, db, spec);
    case CrashOp => RestartRaw(c, db, spec, parts);
    case ShutdownOp => ShutdownRaw(c, db, spec, parts);
  }

  /** Every key the raw map has had over the run. */
  ghost function EverStored(c: Setup, db: Db, ops: seq<Op>): set<string> {
    if ops == [] then RawDb(db).Keys else EverStored(c, db, ops[..|ops| - 1]) + RawDb(Run(c, db, ops)).Keys
  }

  lemma {:induction false} UpdateAbove(a: map<string, Value>, b: map<string, Value>, k: string, v: Value)
    ensures a + b[k := v] == (a + b)[k := v]
  {
  }

  lemma {:induction false} WrittenRaw(c: Setup, db: Db, command: Command)
    requires Sorted(db.memtable) && (command.Set? || command.Del?)
    ensures RawDb(Write(c, db, command, command.key, ValueOf(command))) == RawDb(db)[command.key := ValueOf(command)]
  {
    hide AppendCommand, Raw, Contents, Sorted, Insert;
    InsertUpdates(db.memtable, command.key, ValueOf(command));
    UpdateAbove(Raw(db.tables), Contents(db.memtable), command.key, ValueOf(command));
  }

  lemma {:induction false} WriteRaw(c: Setup, db: Db, spec: map<string, string>, command: Command)
    requires ValidMedium(c.medium) && Shows(c, db, spec) && (command.Set? || command.Del?)
    requires var w := Write(c, db, command, command.key, ValueOf(command)); |w.memtable| >= c.limit ==> FlushIsSafe(c, w)
    ensures RawDb(MaybeFlush(c, Write(c, db, command, command.key, ValueOf(command)))) == RawDb(db)[command.key := ValueOf(command)]
  {
    ShownIsSorted(c, db, spec);
    hide Shows, ValidMedium, Flush, FlushIsSafe, RawDb, Sorted, Write;
    var w := Write(c, db, command, command.key, ValueOf(command));
    WrittenRaw(c, db, command);
    WriteShows(c, db, spec, command, command.key, ValueOf(command));
    if |w.memtable| >= c.limit {
      FlushRaw(c, w, if ValueOf(command).Data? then spec[command.key := ValueOf(command).text] else spec - {command.key});
    }
  }

  /** A write changes the raw map at its key and nowhere else, flush and merge included. */
  lemma {:induction false} WriteIsUpdate(c: Setup, db: Db, spec: map<string, string>, op: Op)
    requires ValidMedium(c.medium) && Shows(c, db, spec) && IsWrite(op) && SafeStep(c, db, op)
    ensures RawDb(Step(c, db, op)) == RawDb(db)[op.key := if op.PutOp? then Data(op.value) else Tombstone]
  {
    hide Shows, ValidMedium, MaybeFlush, Write, FlushIsSafe, RawDb;
    if op.PutOp? {
      WriteRaw(c, db, spec, Set(op.key, op.value));
    } else {
      WriteRaw(c, db, spec, Del(op.key));
    }
  }

  lemma {:induction false} FlushingKeepsLog(c: Setup, w: Db)
    ensures MaybeFlush(c, w).wal == w.wal
  {
    hide Flush;
    FlushKeepsLog(c, w);
  }

  /** What a write adds to the log is in the raw map. */
  lemma {:induction false} WriteEver(c: Setup, db: Db, spec: map<string, string>, parts: seq<seq<Command>>, command: Command, spec': map<string, string>,
                                     parts': seq<seq<Command>>)
    requires ValidMedium(c.medium) && Shows(c, db, spec) && Recovers(c, db, spec, parts) && Writable(command)
    requires var w := Write(c, db, command, command.key, ValueOf(command)); |w.memtable| >= c.limit ==> FlushIsSafe(c, w)
    requires Recovers(c, MaybeFlush(c, Write(c, db, command, command.key, ValueOf(command))), spec', parts')
    ensures Logged(parts').Keys <=
            Logged(parts).Keys + RawDb(MaybeFlush(c, Write(c, db, command, command.key, ValueOf(command)))).Keys
  {
    var w := Write(c, db, command, command.key, ValueOf(command));
    ShownIsSorted(c, db, spec);
    WriteRaw(c, db, spec, command);
    var own := AppendLogged(c, db, spec, parts, command);
    FlushingKeepsLog(c, w);
    hide Shows, Durable, HoldsLog, Logged, Write, MaybeFlush, FlushIsSafe, RawDb, LastWins, CleanLogged, Within, Sorted, ValidMedium;
    SameLogged(c.crc, w.wal, own, parts');
  }

  lemma {:induction false} RestartEver(c: Setup, db: Db, spec: map<string, string>, parts: seq<seq<Command>>, spec': map<string, string>,
                                       parts': seq<seq<Command>>)
    requires Recovers(c, db, spec, parts) && Recovers(c, Restart(c, db), spec', parts')
    ensures Logged(parts') == Logged(parts)
  {
    hide Durable, Joined, LastWins, CleanLogged, Within, HoldsLog, OpenLog, LoadAll;
    var own := ReopenHolds(c.crc, db.wal, parts);
    SameLogged(c.crc, OpenLog(db.wal.segments), own, parts');
  }

  lemma {:induction false} ClearedEver(c: Setup, f: Db, spec: map<string, string>, parts: seq<seq<Command>>, spec': map<string, string>,
                                       parts': seq<seq<Command>>)
    requires Recovers(c, f, spec, parts) && Recovers(c, Restart(c, f.(wal := CheckpointLog(ResetLog(f.wal)))), spec', parts')
    ensures Logged(parts') == map[]
  {
    hide Durable, Joined, LastWins, CleanLogged, Within, HoldsLog, OpenLog, LoadAll, CheckpointLog, ResetLog;
    var own := ShutdownHolds(c.crc, f.wal, parts);
    SameLogged(c.crc, OpenLog(CheckpointLog(ResetLog(f.wal)).segments), own, parts');
    NothingReplayed();
  }

  lemma {:induction false} ShutdownEver(c: Setup, db: Db, spec: map<string, string>, parts: seq<seq<Command>>, spec': map<string, string>,
                                        parts': seq<seq<Command>>)
    requires ValidMedium(c.medium) && Shows(c, db, spec) && Recovers(c, db, spec, parts) && FlushFits(c, db)
    requires Recovers(c, Restart(c, Shutdown(c, db)), spec', parts')
    ensures Logged(parts').Keys <= Logged(parts).Keys
  {
    if db.memtable == [] {
      RestartEver(c, db, spec, parts, spec', parts');
    } else {
      ShownIsSorted(c, db, spec);
      hide Shows, Recovers, Flush, Restart, CheckpointLog, ResetLog, FlushFits, Sorted, Logged, ValidMedium;
      FlushRecovers(c, db, spec, parts);
      ClearedEver(c, Flush(c, db), spec, parts, spec', parts');
    }
  }

  lemma {:induction false} SameLogEver(c: Setup, db: Db, spec: map<string, string>, parts: seq<seq<Command>>, r: Db, spec': map<string, string>,
                                       parts': seq<seq<Command>>)
    requires Recovers(c, db, spec, parts) && Recovers(c, r, spec', parts') && r.wal == db.wal
    ensures Logged(parts') == Logged(parts)
  {
    hide Durable, Logged, LastWins, CleanLogged, Within, HoldsLog;
    SameLogged(c.crc, db.wal, parts, parts');
  }

  /** No step logs a key that the raw map has not had. */
  lemma {:induction false} StepEver(c: Setup, db: Db, spec: map<string, string>, parts: seq<seq<Command>>, op: Op, spec': map<string, string>,
                                    parts': seq<seq<Command>>)
    requires ValidMedium(c.medium) && Shows(c, db, spec) && Recovers(c, db, spec, parts)
    requires SafeStep(c, db, op) && FittingStep(c, db, op) && Admissible(op)
    requires Recovers(c, Step(c, db, op), spec', parts')
    ensures Logged(parts').Keys <= Logged(parts).Keys + RawDb(Step(c, db, op)).Keys
  {
    hide Shows, Recovers, Flush, MaybeFlush, Write, CompactTables, Restart, Shutdown, FlushIsSafe, FlushFits, PickIsSafe, RawDb, Logged,
         ValidMedium, Writable, CleanKey;
    match op
    case PutOp(key, value) => WriteEver(c, db, spec, parts, Set(key, value), spec', parts');
    case DeleteOp(key) => WriteEver(c, db, spec, parts, Del(key), spec', parts');
    case FlushOp =>
      FlushKeepsLog(c, db);
      SameLogEver(c, db, spec, parts, Flush(c, db), spec', parts');
    case CompactOp =>
      CompactKeepsLog(c, db);
      SameLogEver(c, db, spec, parts, CompactTables(c, db), spec', parts');
    case CrashOp => RestartEver(c, db, spec, parts, spec', parts');
    case ShutdownOp => ShutdownEver(c, db, spec, parts, spec', parts');
  }

  /** Over every good run the log knows no key that the raw map has not had. */
  lemma {:induction false} RunEver(c: Setup, id: nat, ops: seq<Op>) returns (parts: seq<seq<Command>>)
    requires ValidMedium(c.medium) && GoodRun(c, Fresh(id), ops)
    ensures Shows(c, Run(c, Fresh(id), ops), ApplyAll(map[], ops))
    ensures Recovers(c, Run(c, Fresh(id), ops), ApplyAll(map[], ops), parts)
    ensures Logged(parts).Keys <= EverStored(c, Fresh(id), ops) && RawDb(Run(c, Fresh(id), ops)).Keys <= EverStored(c, Fresh(id), ops)
  {
    hide Shows, Recovers, ValidMedium, GoodRun, SafeStep, FittingStep, Admissible, Step, RawDb, Logged;
    if ops == [] {
      parts := FreshShows(c, id);
      FreshLogged(c, id, parts);
    } else {
      hide Fresh;
      var n := |ops| - 1;
      GoodPrefix(c, Fresh(id), ops);
      var before := RunEver(c, id, ops[..n]);
      parts := StepRecovers(c, Run(c, Fresh(id), ops[..n]), ApplyAll(map[], ops[..n]), before, ops[n]);
      StepEver(c, Run(c, Fresh(id), ops[..n]), ApplyAll(map[], ops[..n]), before, ops[n], ApplyAll(map[], ops), parts);
    }
  }

  lemma {:induction false} FreshLogged(c: Setup, id: nat, parts: seq<seq<Command>>)
    requires Recovers(c, Fresh(id), map[], parts)
    ensures Logged(parts) == map[]
  {
    hide Durable, LastWins, CleanLogged, Within, HoldsLog, LoadAll, Joined, OpenLog;
    var own := EmptyLogHolds(c.crc, map[]);
    SameLogged(c.crc, OpenLog(map[]), own, parts);
    NothingReplayed();
  }

  /** So whatever the engine does by itself in a good run, flush, merge, crash or shutdown, is a clean event of the SQL layer
      over its raw map. */
  lemma {:induction false} EngineStepIsClean(c: Setup, id: nat, ops: seq<Op>, op: Op, catalog: Catalog)
    requires ValidMedium(c.medium) && GoodRun(c, Fresh(id), ops + [op]) && !IsWrite(op)
    ensures CleanEvent(Sql(catalog, RawDb(Run(c, Fresh(id), ops))), EverStored(c, Fresh(id), ops),
                       Settle(RawDb(Run(c, Fresh(id), ops + [op]))))
  {
    hide Shows, Recovers, ValidMedium, GoodRun, SafeStep, FittingStep, Admissible, Step, RawDb, Logged, Fresh, EverStored, Live;
    InitOfSnoc(ops, op);
    GoodPrefix(c, Fresh(id), ops + [op]);
    var db, spec := Run(c, Fresh(id), ops), ApplyAll(map[], ops);
    var parts := RunEver(c, id, ops);
    StepSettles(c, db, spec, parts, op);
    var after := StepRecovers(c, db, spec, parts, op);
    SettlesSame(c, db, Step(c, db, op), spec, op);
  }

  lemma {:induction false} SettlesSame(c: Setup, db: Db, r: Db, spec: map<string, string>, op: Op)
    requires Shows(c, db, spec) && Shows(c, r, Apply(spec, op)) && !IsWrite(op)
    ensures Live(RawDb(r)) == Live(RawDb(db))
  {
    hide ValidDb;
  }
}
