/** Until the first shutdown the log knows every stored key, so that no crash inside a compaction loses any. */
module CrashRuns {
  import opened SortedMap
  import opened Records
  import opened Commands
  import opened WriteAheadLog
  import opened TableBuilder
  import opened Splitting
  import opened Selection
  import opened Leveling
  import opened Manifests
  import opened ManagerState
  import opened Durability
  import opened Picker
  import opened Compactions
  import opened EngineState
  import opened Recovery
  import opened Strays
  import opened CrashAnswers
  import opened TornManifests
  import opened TornCheckpoints
  import opened CrashLevels
  import opened CrashSteps
  import opened CrashWrites
  import opened L0Crashes
  import opened L1Crashes
  import opened CrashFlushes

  /** The log knows every key of the tables. */
  ghost predicate RawLogged(s: Manager, logged: map<string, Value>) {
    Raw(s).Keys <= logged.Keys
  }

  /** What is logged does not depend on how the log's commands are told apart by segment. */
  lemma {:induction false} SameLogged(crc: Checksum, log: Log, a: seq<seq<Command>>, b: seq<seq<Command>>)
    requires HoldsLog(crc, log, a) && HoldsLog(crc, log, b)
    ensures Logged(a) == Logged(b)
  {
    LoadExact(crc, log, a);
    LoadExact(crc, log, b);
    hide LoadAll, HoldsLog, Joined;
  }

  lemma {:induction false} OverlayWithin(a: seq<SSTable>, b: seq<SSTable>)
    requires forall t :: t in a ==> t in b
    ensures Overlay(Stack(a)).Keys <= Overlay(Stack(b)).Keys
  {
    hide Overlay, RecordsOf, Contents;
    forall k | k in Overlay(Stack(a))
      ensures k in Overlay(Stack(b))
    {
      var i := OverlayOrigin(Stack(a), k);
      assert a[i] in b;
      var j :| 0 <= j < |b| && b[j] == a[i];
      OverlayKeys(Stack(b), j, k);
    }
  }

  lemma {:induction false} UnchosenWithin<T>(ts: seq<T>, c: seq<nat>)
    ensures forall t :: t in Unchosen(ts, c) ==> t in ts
  {
    if ts != [] {
      UnchosenWithin(ts[..|ts| - 1], c);
    }
  }

  lemma {:induction false} InputWithin(s: Manager)
    requires s.l1 != []
    ensures Overlay(Stack(NextInput(s))).Keys <= Raw(s).Keys
  {
    hide Overlay, RecordsOf, Met;
    var picked := Pick(s.l2, Met(s));
    OverlayWithin(picked, s.l2);
    OverlayWithin([s.l1[0]], s.l1);
    StackConcat(picked, [s.l1[0]]);
    OverlayConcat(Stack(picked), Stack([s.l1[0]]));
  }

  /** An L1 compaction brings no key. */
  lemma {:induction false} MergedWithin(m: Medium, s: Manager)
    requires ValidMedium(m) && s.l1 != []
    ensures Raw(CompactL1ToL2(m, s, 0, Met(s))).Keys <= Raw(s).Keys
  {
    CompactedL1(m, s, 0, Met(s));
    NextOutputFacts(m, s);
    InputWithin(s);
    var r, outs := CompactL1ToL2(m, s, 0, Met(s)), NextOutput(m, s);
    hide CompactL1ToL2, NextInput, Met, Overlay, RecordsOf, AllValid, ValidMedium, WrittenTables;
    UnchosenWithin(s.l2, Met(s));
    OverlayWithin(Unchosen(s.l2, Met(s)), s.l2);
    StackConcat(Unchosen(s.l2, Met(s)), outs);
    OverlayConcat(Stack(Unchosen(s.l2, Met(s))), Stack(outs));
    OverlayWithin(r.l1, s.l1);
  }

  lemma {:induction false} PickedL1Within(m: Medium, s: Manager)
    requires ValidMedium(m)
    ensures Raw(PickedL1(m, s)).Keys <= Raw(s).Keys
  {
    hide CompactL1ToL2, Raw;
    if PickL1(s.l1, s.l2).Some? {
      MergedWithin(m, s);
    }
  }

  lemma {:induction false} CompactLogged(c: Setup, db: Db, spec: map<string, string>, logged: map<string, Value>)
    requires ValidMedium(c.medium) && Shows(c, db, spec) && PickIsSafe(db.tables.l0) && RawLogged(db.tables, logged)
    ensures RawLogged(CompactTables(c, db).tables, logged)
  {
    hide ValidLevels, PickedL0, PickedL1, PickIsSafe, Raw;
    PickedL0Keeps(c.medium, db.tables);
    PickedL1Within(c.medium, PickedL0(c.medium, db.tables));
  }

  lemma {:induction false} FlushLogged(c: Setup, db: Db, spec: map<string, string>, logged: map<string, Value>)
    requires ValidMedium(c.medium) && Shows(c, db, spec) && FlushIsSafe(c, db)
    requires RawLogged(db.tables, logged) && Contents(db.memtable).Keys <= logged.Keys
    ensures RawLogged(Flush(c, db).tables, logged)
  {
    hide ValidLevels, PickedL0, PickIsSafe, Raw, Flushed, Contents, Sorted;
    if db.memtable != [] {
      FlushedKeeps(c.medium, db.tables, db.memtable);
      PickedL0Keeps(c.medium, Flushed(c.medium, db.tables, db.memtable));
    }
  }

  lemma {:induction false} AppendLogged(c: Setup, db: Db, spec: map<string, string>, parts: seq<seq<Command>>, command: Command)
    returns (parts': seq<seq<Command>>)
    requires Recovers(c, db, spec, parts) && Sorted(db.memtable) && Writable(command)
    ensures var w := Write(c, db, command, command.key, ValueOf(command));
            && HoldsLog(c.crc, w.wal, parts') && w.tables == db.tables
            && Logged(parts') == Logged(parts)[command.key := ValueOf(command)]
            && Contents(w.memtable).Keys <= Logged(parts').Keys
  {
    hide Durable, HoldsLog, Insert, Contents, Replayed, Joined, Sorted, AppendCommand, LastWins, CleanLogged;
    HoldsShape(c.crc, db.wal, parts);
    parts' := Appended(c.crc, db.wal, parts, command);
    AppendHolds(c.crc, db.wal, parts, command);
    hide Appended;
    ReplayedAppend(Joined(parts), command);
    InsertUpdates(db.memtable, command.key, ValueOf(command));
  }

  lemma {:induction false} WriteLogged(c: Setup, db: Db, spec: map<string, string>, parts: seq<seq<Command>>, command: Command)
    returns (parts': seq<seq<Command>>)
    requires ValidMedium(c.medium) && Shows(c, db, spec) && Recovers(c, db, spec, parts) && Writable(command)
    requires RawLogged(db.tables, Logged(parts))
    requires var w := Write(c, db, command, command.key, ValueOf(command)); |w.memtable| >= c.limit ==> FlushIsSafe(c, w)
    ensures var r := MaybeFlush(c, Write(c, db, command, command.key, ValueOf(command)));
            HoldsLog(c.crc, r.wal, parts') && RawLogged(r.tables, Logged(parts'))
  {
    ShownIsSorted(c, db, spec);
    var w := Write(c, db, command, command.key, ValueOf(command));
    WriteShows(c, db, spec, command, command.key, ValueOf(command));
    hide Shows, Recovers, HoldsLog, Flush, FlushIsSafe, Write, Raw, Contents, Logged, ValidMedium, Sorted;
    parts' := AppendLogged(c, db, spec, parts, command);
    if |w.memtable| >= c.limit {
      var value := ValueOf(command);
      FlushLogged(c, w, if value.Data? then spec[command.key := value.text] else spec - {command.key}, Logged(parts'));
      FlushKeepsLog(c, w);
    }
  }

  lemma {:induction false} FlushKeepsLog(c: Setup, db: Db)
    ensures Flush(c, db).wal == db.wal
  {
    hide PickedL0, Flushed;
  }

  lemma {:induction false} CrashLogged(c: Setup, db: Db, spec: map<string, string>, parts: seq<seq<Command>>)
    returns (parts': seq<seq<Command>>)
    requires Shows(c, db, spec) && Recovers(c, db, spec, parts) && RawLogged(db.tables, Logged(parts))
    ensures var r := Restart(c, db); HoldsLog(c.crc, r.wal, parts') && RawLogged(r.tables, Logged(parts'))
  {
    OpenedUp(c, db, spec, parts);
    hide Shows, Recovers, HoldsLog, ValidLevels, Durable, Raw, LoadAll, OpenLog, Reopened, Contents, Replayed, Joined;
    parts' := ReopenHolds(c.crc, db.wal, parts);
    RestartLoads(c, db, parts);
    ReopenedKeeps(c.medium, db.tables);
  }

  /** Every step but a shutdown keeps the stored keys logged. */
  lemma {:induction false} StepLogged(c: Setup, db: Db, spec: map<string, string>, parts: seq<seq<Command>>, op: Op)
    returns (parts': seq<seq<Command>>)
    requires ValidMedium(c.medium) && Shows(c, db, spec) && Recovers(c, db, spec, parts) && RawLogged(db.tables, Logged(parts))
    requires SafeStep(c, db, op) && FittingStep(c, db, op) && Admissible(op) && !op.ShutdownOp?
    ensures Shows(c, Step(c, db, op), Apply(spec, op)) && Recovers(c, Step(c, db, op), Apply(spec, op), parts')
    ensures RawLogged(Step(c, db, op).tables, Logged(parts'))
  {
    var own := StepLogs(c, db, spec, parts, op);
    hide Shows, HoldsLog, RawLogged, Step, Apply, SafeStep, FittingStep, Admissible, ValidMedium, Durable, Logged, LastWins, CleanLogged, Contents;
    parts' := StepRecovers(c, db, spec, parts, op);
    SameLogged(c.crc, Step(c, db, op).wal, own, parts');
  }

  lemma {:induction false} WriteOpLogged(c: Setup, db: Db, spec: map<string, string>, parts: seq<seq<Command>>, op: Op)
    returns (parts': seq<seq<Command>>)
    requires ValidMedium(c.medium) && Shows(c, db, spec) && Recovers(c, db, spec, parts) && RawLogged(db.tables, Logged(parts))
    requires SafeStep(c, db, op) && Admissible(op) && (op.PutOp? || op.DeleteOp?)
    ensures HoldsLog(c.crc, Step(c, db, op).wal, parts') && RawLogged(Step(c, db, op).tables, Logged(parts'))
  {
    hide Shows, Recovers, HoldsLog, RawLogged, MaybeFlush, Write, FlushIsSafe, ValidMedium, Logged, Writable, CleanKey;
    match op
    case PutOp(key, value) => parts' := WriteLogged(c, db, spec, parts, Set(key, value));
    case DeleteOp(key) => parts' := WriteLogged(c, db, spec, parts, Del(key));
  }

  lemma {:induction false} MoveOpLogged(c: Setup, db: Db, spec: map<string, string>, parts: seq<seq<Command>>, op: Op)
    requires ValidMedium(c.medium) && Shows(c, db, spec) && Recovers(c, db, spec, parts) && RawLogged(db.tables, Logged(parts))
    requires SafeStep(c, db, op) && (op.FlushOp? || op.CompactOp?)
    ensures HoldsLog(c.crc, Step(c, db, op).wal, parts) && RawLogged(Step(c, db, op).tables, Logged(parts))
  {
    OpenedUp(c, db, spec, parts);
    LoggedMemtable(c, db, spec, parts);
    hide Shows, Recovers, HoldsLog, RawLogged, Flush, CompactTables, FlushIsSafe, PickIsSafe, ValidMedium, ValidLevels, Durable, Contents, Logged;
    if op.FlushOp? {
      FlushLogged(c, db, spec, Logged(parts));
      FlushKeepsLog(c, db);
    } else {
      CompactLogged(c, db, spec, Logged(parts));
      CompactKeepsLog(c, db);
    }
  }

  lemma {:induction false} StepLogs(c: Setup, db: Db, spec: map<string, string>, parts: seq<seq<Command>>, op: Op)
    returns (parts': seq<seq<Command>>)
    requires ValidMedium(c.medium) && Shows(c, db, spec) && Recovers(c, db, spec, parts) && RawLogged(db.tables, Logged(parts))
    requires SafeStep(c, db, op) && Admissible(op) && !op.ShutdownOp?
    ensures HoldsLog(c.crc, Step(c, db, op).wal, parts') && RawLogged(Step(c, db, op).tables, Logged(parts'))
  {
    if op.CrashOp? {
      hide Shows, Recovers, HoldsLog, RawLogged, Restart, ValidMedium, Logged;
      parts' := CrashLogged(c, db, spec, parts);
    } else {
      hide Shows, Recovers, HoldsLog, RawLogged, Step, SafeStep, Admissible, ValidMedium, Logged;
      if op.FlushOp? || op.CompactOp? {
        MoveOpLogged(c, db, spec, parts, op);
        parts' := parts;
      } else {
        parts' := WriteOpLogged(c, db, spec, parts, op);
      }
    }
  }

  lemma {:induction false} CompactKeepsLog(c: Setup, db: Db)
    ensures CompactTables(c, db).wal == db.wal
  {
    hide MaybeCompact;
  }

  predicate NoShutdown(ops: seq<Op>) {
    forall i :: 0 <= i < |ops| ==> !ops[i].ShutdownOp?
  }

  /** Over every run from an empty directory without a shutdown, crashes included, the log knows every stored key. */
  lemma {:induction false} RunLogged(c: Setup, id: nat, ops: seq<Op>) returns (parts: seq<seq<Command>>)
    requires ValidMedium(c.medium) && GoodRun(c, Fresh(id), ops) && NoShutdown(ops)
    ensures Shows(c, Run(c, Fresh(id), ops), ApplyAll(map[], ops))
    ensures Recovers(c, Run(c, Fresh(id), ops), ApplyAll(map[], ops), parts)
    ensures RawLogged(Run(c, Fresh(id), ops).tables, Logged(parts))
  {
    hide Shows, Recovers, ValidMedium, GoodRun, SafeStep, FittingStep, Admissible, Step, RawLogged;
    if ops == [] {
      parts := FreshShows(c, id);
      FreshRaw(id, Logged(parts));
    } else {
      hide Fresh;
      var n := |ops| - 1;
      GoodPrefix(c, Fresh(id), ops);
      parts := RunLogged(c, id, ops[..n]);
      parts := StepLogged(c, Run(c, Fresh(id), ops[..n]), ApplyAll(map[], ops[..n]), parts, ops[n]);
    }
  }

  lemma {:induction false} FreshRaw(id: nat, logged: map<string, Value>)
    ensures RawLogged(Fresh(id).tables, logged)
  {
  }

  lemma {:induction false} RawLoggedInputs(s: Manager, logged: map<string, Value>)
    requires RawLogged(s, logged)
    ensures forall c :: InRange(s.l0, c) ==> KeysLogged(Pick(s.l0, c), logged)
    ensures s.l1 != [] ==> KeysLogged(NextInput(s), logged)
  {
    forall c | InRange(s.l0, c)
      ensures KeysLogged(Pick(s.l0, c), logged)
    {
      OverlayWithin(Pick(s.l0, c), s.l0);
    }
    if s.l1 != [] {
      InputWithin(s);
    }
  }

  /** A manager that shows the same for unlogged keys has no unlogged key either. */
  lemma {:induction false} RawStaysLogged(s: Manager, t: Manager, logged: map<string, Value>)
    requires SameUnlogged(s, t, logged) && RawLogged(s, logged)
    ensures RawLogged(t, logged)
  {
    hide Raw;
    forall k | k !in logged
      ensures k !in Raw(t)
    {
      assert Lookup(Raw(t), k) == Lookup(Raw(s), k);
    }
  }

  lemma {:induction false} SpanOfLogged(ts: seq<SSTable>, a: nat, b: nat, logged: map<string, Value>)
    requires Overlay(Stack(ts)).Keys <= logged.Keys
    ensures SpanLogged(ts, a, b, logged)
  {
    hide Overlay, RecordsOf, Contents;
    forall i, k | a <= i < b && i < |ts| && HasKey(RecordsOf(ts[i]), k)
      ensures k in logged
    {
      OverlayKeys(Stack(ts), i, k);
    }
  }

  /** Then the log knows whatever a torn checkpoint leaves out. */
  lemma {:induction false} CutIsLogged(m: Medium, base: Manager, s: Manager, tear: Tear, logged: map<string, Value>)
    requires Cuts(s, tear) && StandingAfter(m, base, s, tear, logged) && RawLogged(base, logged)
    ensures CutLogged(s, tear, logged)
  {
    hide NewTo, StraysLogged, SameUnlogged, RawLogged, Raw, OldFits, OldLevels, LinesRead, SpanLogged, Overlay, Stack, Before, WithTable, FileText, AddRecords, AllTables, Paths;
    if tear.InCheckpoint? {
      var w := WithTable(s, tear.table);
      RawStaysLogged(base, w, logged);
      LevelsLogged(w, logged);
      if OldFits(w) {
        var o, cut := OldLevels(w), LinesRead(w, tear.n);
        SpanOfLogged(w.l0, Before(cut, 0, w.l0), |o.l0|, logged);
        SpanOfLogged(w.l1, Before(cut, |w.l0|, w.l1), |o.l1|, logged);
        SpanOfLogged(w.l2, Before(cut, |w.l0| + |w.l1|, w.l2), |o.l2|, logged);
      }
    }
  }

  lemma {:induction false} LevelsLogged(s: Manager, logged: map<string, Value>)
    requires RawLogged(s, logged)
    ensures Overlay(Stack(s.l0)).Keys <= logged.Keys && Overlay(Stack(s.l1)).Keys <= logged.Keys && Overlay(Stack(s.l2)).Keys <= logged.Keys
  {
    hide Overlay, Stack;
  }

  /** Until the first shutdown a crash inside an L0 compaction loses nothing, whatever the choice: not between two writes, and
      not in the middle of a manifest line or of a checkpoint. */
  lemma {:induction false} L0CrashIsSafe(c: Setup, id: nat, ops: seq<Op>, choice: seq<nat>, removed: nat, installed: nat, tear: Tear,
                                         strays: seq<SSTable>, key: string)
    requires ValidMedium(c.medium) && GoodRun(c, Fresh(id), ops) && NoShutdown(ops)
    requires var db := Run(c, Fresh(id), ops);
             && ReachedL0(c.medium, db.tables, choice, removed, installed)
             && TearsL0(c.medium, db.tables, choice, removed, installed, tear) && FitsL0(c.medium, db.tables, choice, installed, tear)
             && forall o :: o in strays ==> IsStray(AfterL0Crash(c, db, choice, removed, installed, tear).tables, o)
    ensures var r := Adopt(AfterL0Crash(c, Run(c, Fresh(id), ops), choice, removed, installed, tear), strays);
            && Live(RawDb(r)) == ApplyAll(map[], ops)
            && Answer(Search(c.medium.hasher, r, key)) == Lookup(ApplyAll(map[], ops), key)
  {
    var db := Run(c, Fresh(id), ops);
    var parts := RunLogged(c, id, ops);
    RunListed(c, id, ops);
    L0CrashLogged(c, db, ApplyAll(map[], ops), parts, choice, removed, installed, tear, strays, key);
  }

  lemma {:induction false} L0CrashLogged(c: Setup, db: Db, spec: map<string, string>, parts: seq<seq<Command>>,
                                         choice: seq<nat>, removed: nat, installed: nat, tear: Tear, strays: seq<SSTable>, key: string)
    requires ValidMedium(c.medium) && Shows(c, db, spec) && Recovers(c, db, spec, parts) && ListedBut(db.tables, {})
    requires RawLogged(db.tables, Logged(parts)) && ReachedL0(c.medium, db.tables, choice, removed, installed)
    requires TearsL0(c.medium, db.tables, choice, removed, installed, tear) && FitsL0(c.medium, db.tables, choice, installed, tear)
    requires forall o :: o in strays ==> IsStray(AfterL0Crash(c, db, choice, removed, installed, tear).tables, o)
    ensures var r := Adopt(AfterL0Crash(c, db, choice, removed, installed, tear), strays);
            Live(RawDb(r)) == spec && Answer(Search(c.medium.hasher, r, key)) == Lookup(spec, key)
  {
    OpenedUp(c, db, spec, parts);
    assert InRange(db.tables.l0, choice);
    hide Shows, Recovers, ValidMedium, ListedBut, KeysLogged, FitsL0, IsStray, RawLogged, MidL0, AfterL0Crash, ReachedL0, Durable, ValidLevels,
         HoldsLog, Logged, StandingAfter, CutLogged, Cuts, Search;
    var m, s, logged := c.medium, db.tables, Logged(parts);
    RawLoggedInputs(s, logged);
    StandsAfterL0(m, s, choice, removed, installed, tear, logged);
    CutIsLogged(m, s, MidL0(m, s, choice, removed, installed), tear, logged);
    CrashInL0Compaction(c, db, spec, parts, choice, removed, installed, tear, strays, key);
  }

  /** The same for a crash inside an L1 compaction. */
  lemma {:induction false} L1CrashIsSafe(c: Setup, id: nat, ops: seq<Op>, removed: nat, moved: bool, installed: nat, tear: Tear,
                                         strays: seq<SSTable>, key: string)
    requires ValidMedium(c.medium) && GoodRun(c, Fresh(id), ops) && NoShutdown(ops)
    requires var db := Run(c, Fresh(id), ops);
             && db.tables.l1 != [] && ReachedL1(c.medium, db.tables, removed, moved, installed)
             && TearsL1(c.medium, db.tables, removed, moved, installed, tear) && FitsL1(c.medium, db.tables, installed, tear)
             && forall o :: o in strays ==> IsStray(AfterL1Crash(c, db, removed, moved, installed, tear).tables, o)
    ensures var r := Adopt(AfterL1Crash(c, Run(c, Fresh(id), ops), removed, moved, installed, tear), strays);
            && Live(RawDb(r)) == ApplyAll(map[], ops)
            && Answer(Search(c.medium.hasher, r, key)) == Lookup(ApplyAll(map[], ops), key)
  {
    var db := Run(c, Fresh(id), ops);
    var parts := RunLogged(c, id, ops);
    RunListed(c, id, ops);
    L1CrashLogged(c, db, ApplyAll(map[], ops), parts, removed, moved, installed, tear, strays, key);
  }

  lemma {:induction false} L1CrashLogged(c: Setup, db: Db, spec: map<string, string>, parts: seq<seq<Command>>,
                                         removed: nat, moved: bool, installed: nat, tear: Tear, strays: seq<SSTable>, key: string)
    requires ValidMedium(c.medium) && Shows(c, db, spec) && Recovers(c, db, spec, parts) && ListedBut(db.tables, {})
    requires RawLogged(db.tables, Logged(parts)) && db.tables.l1 != [] && ReachedL1(c.medium, db.tables, removed, moved, installed)
    requires TearsL1(c.medium, db.tables, removed, moved, installed, tear) && FitsL1(c.medium, db.tables, installed, tear)
    requires forall o :: o in strays ==> IsStray(AfterL1Crash(c, db, removed, moved, installed, tear).tables, o)
    ensures var r := Adopt(AfterL1Crash(c, db, removed, moved, installed, tear), strays);
            Live(RawDb(r)) == spec && Answer(Search(c.medium.hasher, r, key)) == Lookup(spec, key)
  {
    OpenedUp(c, db, spec, parts);
    hide Shows, Recovers, ValidMedium, ListedBut, KeysLogged, FitsL1, IsStray, RawLogged, MidL1, AfterL1Crash, ReachedL1, Durable, ValidLevels,
         HoldsLog, Logged, StandingAfter, CutLogged, Cuts, Search, NextInput;
    var m, s, logged := c.medium, db.tables, Logged(parts);
    RawLoggedInputs(s, logged);
    StandsAfterL1(m, s, removed, moved, installed, tear, logged);
    CutIsLogged(m, s, MidL1(m, s, removed, moved, installed), tear, logged);
    CrashInL1Compaction(c, db, spec, parts, removed, moved, installed, tear, strays, key);
  }

  lemma {:induction false} ListedLogged(s: Manager, tables: seq<SSTable>, logged: map<string, Value>)
    requires RawLogged(s, logged) && forall t :: t in tables ==> t in AllTables(s)
    ensures KeysLogged(tables, logged)
  {
    OverlayWithin(tables, AllTables(s));
    hide Overlay, Stack;
    StackConcat(s.l0, s.l1);
    StackConcat(s.l0 + s.l1, s.l2);
    OverlayConcat(Stack(s.l0), Stack(s.l1));
    OverlayConcat(Stack(s.l0) + Stack(s.l1), Stack(s.l2));
  }

  /** Nor does a crash while a compaction of listed tables writes its files. */
  lemma {:induction false} MergeCrashIsSafe(c: Setup, id: nat, ops: seq<Op>, tables: seq<SSTable>, level: Level, drop: bool, written: nat,
                                            strays: seq<SSTable>, key: string)
    requires ValidMedium(c.medium) && GoodRun(c, Fresh(id), ops) && NoShutdown(ops)
    requires written <= |Split(MergedRecords(tables, drop))|
    requires var db := Run(c, Fresh(id), ops);
             && (forall t :: t in tables ==> t in AllTables(db.tables))
             && forall o :: o in strays ==> IsStray(Restart(c, db.(tables := MidMerge(c.medium, db.tables, tables, level, drop, written))).tables, o)
    ensures var db := Run(c, Fresh(id), ops);
            var r := Adopt(Restart(c, db.(tables := MidMerge(c.medium, db.tables, tables, level, drop, written))), strays);
            && Live(RawDb(r)) == ApplyAll(map[], ops)
            && Answer(Search(c.medium.hasher, r, key)) == Lookup(ApplyAll(map[], ops), key)
  {
    hide Shows, Recovers, ValidMedium, GoodRun, Run, Fresh, ListedBut, KeysLogged, Split, MergedRecords, IsStray, RawLogged, MidMerge, Restart, AllTables;
    var db := Run(c, Fresh(id), ops);
    var parts := RunLogged(c, id, ops);
    RunListed(c, id, ops);
    ListedLogged(db.tables, tables, Logged(parts));
    CrashInMerge(c, db, ApplyAll(map[], ops), parts, tables, level, drop, written, strays, key);
  }
}
