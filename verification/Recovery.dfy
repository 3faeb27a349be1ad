/** A restart, after a crash or a shutdown, answers every key as before. */
module Recovery {
  import opened Seqs
  import opened SortedMap
  import opened Records
  import opened Commands
  import opened WriteAheadLog
  import opened BloomFilters
  import opened Decimal
  import opened TableBuilder
  import opened Leveling
  import opened Manifests
  import opened ManagerState
  import opened Durability
  import opened DurableSteps
  import opened Compactions
  import opened EngineState
  import opened Lookups

  ghost function Logged(parts: seq<seq<Command>>): map<string, Value> {
    Contents(Replayed(Joined(parts)))
  }

  /** What a reader makes of a raw value. */
  function Seen(v: Value): Option<string> {
    if v.Data? then Some(v.text) else None
  }

  /** What the caller of a lookup is told; a tombstone counts as absent. */
  function Answer(r: Option<Value>): Option<string> {
    match r
    case None => None
    case Some(v) => Seen(v)
  }

  /** `newer` agrees with `all` on everything it has. */
  ghost predicate Within(newer: map<string, Value>, all: map<string, Value>) {
    forall k :: k in newer ==> k in all && all[k] == newer[k]
  }

  /** Every logged key shows what its last command says. */
  ghost predicate LastWins(logged: map<string, Value>, spec: map<string, string>) {
    forall k :: k in logged ==> Lookup(spec, k) == Seen(logged[k])
  }

  ghost predicate CleanLogged(logged: map<string, Value>) {
    forall k :: k in logged ==> CleanKey(k)
  }

  /** What makes a restart safe: the manifest rebuilds the levels, the log holds the commands `parts`, every
      memtable entry is the last logged one of its key, and so is what a reader sees of every logged key. */
  ghost predicate Recovers(c: Setup, db: Db, spec: map<string, string>, parts: seq<seq<Command>>) {
    && Durable(c.medium, db.tables) && HoldsLog(c.crc, db.wal, parts)
    && Within(Contents(db.memtable), Logged(parts))
    && LastWins(Logged(parts), spec) && CleanLogged(Logged(parts))
  }

  function ValueOf(command: Command): Value
    requires command.Set? || command.Del?
  {
    if command.Set? then Data(command.value) else Tombstone
  }

  lemma {:induction false} NothingReplayed()
    ensures Replayed([]) == [] && Contents<Value>([]) == map[]
  {
  }

  lemma {:induction false} ReplayedSorted(commands: seq<Command>)
    ensures Sorted(Replayed(commands))
  {
    if commands != [] {
      var n := |commands| - 1;
      ReplayedSorted(commands[..n]);
      match commands[n]
      case Set(key, value) => InsertUpdates(Replayed(commands[..n]), key, Data(value));
      case Del(key) => InsertUpdates(Replayed(commands[..n]), key, Tombstone);
      case _ =>
    }
  }

  lemma {:induction false} ReplayedAppend(commands: seq<Command>, command: Command)
    requires command.Set? || command.Del?
    ensures Contents(Replayed(commands + [command])) == Contents(Replayed(commands))[command.key := ValueOf(command)]
  {
    InitOfSnoc(commands, command);
    ReplayedSorted(commands);
    InsertUpdates(Replayed(commands), command.key, ValueOf(command));
  }

  lemma {:induction false} WriteRecovers(c: Setup, db: Db, spec: map<string, string>, parts: seq<seq<Command>>, command: Command)
    returns (parts': seq<seq<Command>>)
    requires Recovers(c, db, spec, parts) && Sorted(db.memtable)
    requires Writable(command) && CleanKey(command.key)
    ensures var value := ValueOf(command);
            Recovers(c, Write(c, db, command, command.key, value),
                     if value.Data? then spec[command.key := value.text] else spec - {command.key}, parts')
  {
    hide Durable, HoldsLog, CleanKey, Insert, Contents, Replayed, Joined, Sorted, AppendCommand;
    HoldsShape(c.crc, db.wal, parts);
    parts' := Appended(c.crc, db.wal, parts, command);
    AppendHolds(c.crc, db.wal, parts, command);
    ReplayedAppend(Joined(parts), command);
    InsertUpdates(db.memtable, command.key, ValueOf(command));
  }

  lemma {:induction false} HoldsShape(crc: Checksum, log: Log, parts: seq<seq<Command>>)
    requires HoldsLog(crc, log, parts)
    ensures |parts| == log.current + 1
  {
  }

  /** The flushed table is backed by its file. */
  lemma {:induction false} FlushedBacked(m: Medium, disk: map<string, StoredFile>, id: nat, data: seq<Record>)
    requires ValidMedium(m) && Sorted(data) && data != [] && CleanKeys(data) && m.fileBytes(data, |data|) <= U64_MAX
    ensures var t := FlushedTable(m, id, data);
            Backed(m, disk[t.path := WriteFile(m, data, |data|)], t)
  {
    FlushedTableValid(m, id, data);
  }

  /** The memtable's file is written under a fresh path, then listed and logged. */
  lemma {:induction false} FlushedDurable(m: Medium, s: Manager, data: seq<Record>)
    requires ValidMedium(m) && Durable(m, s) && Sorted(data) && data != [] && CleanKeys(data)
    requires m.fileBytes(data, |data|) <= U64_MAX
    ensures Durable(m, Flushed(m, s, data))
  {
    hide Durable, Backed, WriteFile, Sorted, CleanKeys;
    var t, f := FlushedTable(m, s.nextId, data), WriteFile(m, data, |data|);
    FlushedBacked(m, s.disk, s.nextId, data);
    WriteKeepsDurable(m, s, L0, f);
    var w := s.(disk := s.disk[TablePath(L0, s.nextId) := f], nextId := s.nextId + 1);
    NewPathApart(m, s, t);
    InstallKeepsDurable(m, w, t);
  }

  lemma {:induction false} NewPathApart(m: Medium, s: Manager, t: SSTable)
    requires Durable(m, s) && t.path !in s.disk
    ensures forall o :: o in AllTables(s) ==> o.path != t.path
  {
    forall o | o in AllTables(s)
      ensures o.path != t.path
    {
      assert Backed(m, s.disk, o);
    }
  }

  lemma {:induction false} MemtableClean(c: Setup, db: Db, spec: map<string, string>, parts: seq<seq<Command>>)
    requires Recovers(c, db, spec, parts) && Sorted(db.memtable)
    ensures CleanKeys(db.memtable)
  {
    ContentsLists(db.memtable);
  }

  /** The sizes of the files the flush of this memtable writes fit. */
  ghost predicate FlushFits(c: Setup, db: Db) {
    db.memtable != [] ==>
      && c.medium.fileBytes(db.memtable, |db.memtable|) <= U64_MAX
      && PickedL0Fits(c.medium, Flushed(c.medium, db.tables, db.memtable))
  }

  lemma {:induction false} FlushDurable(m: Medium, s: Manager, data: seq<Record>)
    requires ValidMedium(m) && Durable(m, s) && Sorted(data) && data != [] && CleanKeys(data)
    requires m.fileBytes(data, |data|) <= U64_MAX && PickedL0Fits(m, Flushed(m, s, data))
    ensures Durable(m, PickedL0(m, Flushed(m, s, data)))
  {
    hide Durable, Flushed, PickedL0, PickedL0Fits, CleanKeys, Sorted;
    FlushedDurable(m, s, data);
    PickedL0Durable(m, Flushed(m, s, data));
  }

  lemma {:induction false} EmptiedRecovers(c: Setup, db: Db, spec: map<string, string>, parts: seq<seq<Command>>, tables: Manager)
    requires Recovers(c, db, spec, parts) && Durable(c.medium, tables)
    ensures Recovers(c, db.(memtable := [], tables := tables), spec, parts)
  {
    hide Durable, HoldsLog, LastWins, CleanLogged, Logged;
  }

  lemma {:induction false} FlushRecovers(c: Setup, db: Db, spec: map<string, string>, parts: seq<seq<Command>>)
    requires ValidMedium(c.medium) && Recovers(c, db, spec, parts) && Sorted(db.memtable) && FlushFits(c, db)
    ensures Recovers(c, Flush(c, db), spec, parts)
  {
    if db.memtable != [] {
      MemtableClean(c, db, spec, parts);
      assert Durable(c.medium, db.tables);
      hide Recovers, Durable, PickedL0, Flushed, Sorted, CleanKeys, PickedL0Fits;
      FlushDurable(c.medium, db.tables, db.memtable);
      EmptiedRecovers(c, db, spec, parts, PickedL0(c.medium, Flushed(c.medium, db.tables, db.memtable)));
    }
  }

  predicate SameFields(a: SSTable, b: SSTable) {
    a.path == b.path && a.level == b.level && a.minKey == b.minKey && a.maxKey == b.maxKey
  }

  /** The tables of a level as a restart finds them: the same records, the same paths, still backed. */
  lemma {:induction false} ReloadedExact(m: Medium, disk: map<string, StoredFile>, ts: seq<SSTable>)
    requires forall t :: t in ts ==> Backed(m, disk, t)
    ensures var r := Reloaded(ts, disk);
            && Stack(r) == Stack(ts) && AllValid(m.hasher, r) && Reloaded(r, disk) == r
            && (forall i :: 0 <= i < |ts| ==> SameFields(r[i], ts[i]))
            && (forall t :: t in r ==> Backed(m, disk, t))
  {
    var r := Reloaded(ts, disk);
    hide ValidTable, Overlaps;
    forall i | 0 <= i < |ts|
      ensures RecordsOf(r[i]) == RecordsOf(ts[i]) && Backed(m, disk, r[i]) && ValidTable(m.hasher, r[i])
      ensures r[i] == LoadedTable(AddRecord(ts[i]), disk[ts[i].path])
    {
      assert ts[i] in ts;
      LoadedBacked(m, disk, ts[i]);
    }
  }

  lemma {:induction false} LoadedBacked(m: Medium, disk: map<string, StoredFile>, t: SSTable)
    requires Backed(m, disk, t)
    ensures var r := LoadedTable(AddRecord(t), disk[t.path]);
            RecordsOf(r) == RecordsOf(t) && Backed(m, disk, r) && ValidTable(m.hasher, r)
  {
  }

  /** The manager after a restart. */
  function Reopened(s: Manager): Manager {
    var d := Replay(ManifestRecords(s), s.disk);
    s.(l0 := d.l0, l1 := d.l1, l2 := d.l2, operations := 0)
  }

  lemma {:induction false} ReopenedLevels(m: Medium, s: Manager)
    requires Durable(m, s)
    ensures var r := Reopened(s);
            r.l0 == Reloaded(s.l0, s.disk) && r.l1 == Reloaded(s.l1, s.disk) && r.l2 == Reloaded(s.l2, s.disk)
    ensures forall t :: t in s.l0 || t in s.l1 || t in s.l2 ==> Backed(m, s.disk, t)
  {
    LevelInAll(s, L0);
    LevelInAll(s, L1);
    LevelInAll(s, L2);
  }

  lemma {:induction false} SameRanges(h: Hasher, a: seq<SSTable>, b: seq<SSTable>)
    requires BottomLevel(h, a) && AllValid(h, b) && Stack(a) == Stack(b)
    requires forall i :: 0 <= i < |a| ==> b[i].minKey == a[i].minKey && b[i].maxKey == a[i].maxKey
    ensures BottomLevel(h, b)
  {
    hide ValidTable;
    assert forall i :: 0 <= i < |a| ==> RecordsOf(a[i]) == Stack(a)[i] && RecordsOf(b[i]) == Stack(b)[i];
  }

  lemma {:induction false} ReopenedKeeps(m: Medium, s: Manager)
    requires Durable(m, s) && ValidLevels(m, s)
    ensures ValidLevels(m, Reopened(s)) && Raw(Reopened(s)) == Raw(s)
  {
    ReopenedLevels(m, s);
    ReloadedExact(m, s.disk, s.l0);
    ReloadedExact(m, s.disk, s.l1);
    ReloadedExact(m, s.disk, s.l2);
    hide Reopened, Reloaded, BottomLevel, Durable, Backed;
    SameRanges(m.hasher, s.l2, Reopened(s).l2);
  }

  lemma {:induction false} SamePaths(a: seq<SSTable>, b: seq<SSTable>)
    requires DistinctPaths(a) && |a| == |b| && forall i :: 0 <= i < |a| ==> a[i].path == b[i].path
    ensures DistinctPaths(b)
  {
  }

  lemma {:induction false} AllReloaded(s: Manager)
    ensures Reloaded(s.l0, s.disk) + Reloaded(s.l1, s.disk) + Reloaded(s.l2, s.disk) == Reloaded(AllTables(s), s.disk)
  {
    ReloadedConcat(s.l0, s.l1, s.disk);
    ReloadedConcat(s.l0 + s.l1, s.l2, s.disk);
  }

  lemma {:induction false} ReloadedAtLevel(m: Medium, disk: map<string, StoredFile>, ts: seq<SSTable>, level: Level)
    requires AtLevel(ts, level) && forall t :: t in ts ==> Backed(m, disk, t)
    ensures AtLevel(Reloaded(ts, disk), level)
  {
    hide Backed;
    ReloadedExact(m, disk, ts);
    forall t | t in Reloaded(ts, disk)
      ensures t.level == level
    {
      var i :| 0 <= i < |ts| && Reloaded(ts, disk)[i] == t;
      assert ts[i] in ts;
    }
  }

  lemma {:induction false} ReopenedTables(m: Medium, s: Manager)
    requires Durable(m, s)
    ensures TablesDurable(m, Reopened(s))
  {
    ReopenedLevels(m, s);
    var r := Reopened(s);
    AllReloaded(s);
    ReloadedExact(m, s.disk, AllTables(s));
    SamePaths(AllTables(s), AllTables(r));
    ReloadedAtLevel(m, s.disk, s.l0, L0);
    ReloadedAtLevel(m, s.disk, s.l1, L1);
    ReloadedAtLevel(m, s.disk, s.l2, L2);
    hide Reloaded, AtLevel, DistinctPaths, Backed, Issued;
  }

  /** A restarted manager can be restarted again. */
  lemma {:induction false} ReopenedDurable(m: Medium, s: Manager)
    requires Durable(m, s)
    ensures Durable(m, Reopened(s))
  {
    ReopenedTables(m, s);
    ReopenedLevels(m, s);
    ReloadedExact(m, s.disk, s.l0);
    ReloadedExact(m, s.disk, s.l1);
    ReloadedExact(m, s.disk, s.l2);
    hide Reloaded, Replay, Backed, AtLevel, DistinctPaths, Load;
  }

  lemma {:induction false} LoggedDecides(raw: map<string, Value>, newer: map<string, Value>, logged: map<string, Value>)
    requires Within(newer, logged) && LastWins(logged, Live(raw + newer))
    ensures Live(raw + logged) == Live(raw + newer)
  {
    var spec := Live(raw + newer);
    forall k | k in spec
      ensures k in Live(raw + logged) && Live(raw + logged)[k] == spec[k]
    {
      if k in logged {
        assert Lookup(spec, k) == Seen(logged[k]);
      }
    }
    forall k | k in Live(raw + logged)
      ensures k in spec
    {
      if k in logged {
        assert Lookup(spec, k) == Seen(logged[k]);
      }
    }
  }

  /** A restart after a crash shows what was shown before it. */
  lemma {:induction false} RestartShows(c: Setup, db: Db, spec: map<string, string>, parts: seq<seq<Command>>)
    returns (parts': seq<seq<Command>>)
    requires Shows(c, db, spec) && Recovers(c, db, spec, parts)
    ensures Shows(c, Restart(c, db), spec) && Recovers(c, Restart(c, db), spec, parts')
  {
    hide Durable, HoldsLog, ValidLevels, Raw, Replay, Contents, Joined, Replayed, OpenLog, LoadAll;
    parts' := ReopenHolds(c.crc, db.wal, parts);
    LoadExact(c.crc, OpenLog(db.wal.segments), parts');
    ReplayedSorted(Joined(parts'));
    assert Restart(c, db) == Db(Replayed(Joined(parts')), Reopened(db.tables), OpenLog(db.wal.segments));
    ReopenedKeeps(c.medium, db.tables);
    ReopenedDurable(c.medium, db.tables);
    LoggedDecides(Raw(db.tables), Contents(db.memtable), Logged(parts));
  }

  /** So does a restart after a shutdown. */
  lemma {:induction false} ShutdownShows(c: Setup, db: Db, spec: map<string, string>, parts: seq<seq<Command>>)
    returns (parts': seq<seq<Command>>)
    requires ValidMedium(c.medium) && Shows(c, db, spec) && Recovers(c, db, spec, parts) && FlushIsSafe(c, db) && FlushFits(c, db)
    ensures var r := Restart(c, Shutdown(c, db)); Shows(c, r, spec) && Recovers(c, r, spec, parts')
  {
    if db.memtable == [] {
      parts' := RestartShows(c, db, spec, parts);
    } else {
      FlushShows(c, db, spec);
      FlushRecovers(c, db, spec, parts);
      parts' := ClearedShows(c, Flush(c, db), spec, parts);
    }
  }

  /** A restart over emptied segments, with everything in the tables. */
  lemma {:induction false} ClearedShows(c: Setup, f: Db, spec: map<string, string>, parts: seq<seq<Command>>)
    returns (parts': seq<seq<Command>>)
    requires Shows(c, f, spec) && Recovers(c, f, spec, parts) && f.memtable == []
    ensures var r := Restart(c, f.(wal := CheckpointLog(ResetLog(f.wal))));
            Shows(c, r, spec) && Recovers(c, r, spec, parts')
  {
    hide Durable, HoldsLog, ValidLevels, Raw, Replay, Contents, Joined, Replayed, OpenLog, LoadAll, CheckpointLog, ResetLog;
    var wal := CheckpointLog(ResetLog(f.wal));
    parts' := ShutdownHolds(c.crc, f.wal, parts);
    LoadExact(c.crc, OpenLog(wal.segments), parts');
    NothingReplayed();
    assert Restart(c, f.(wal := wal)) == Db([], Reopened(f.tables), OpenLog(wal.segments));
    ReopenedKeeps(c.medium, f.tables);
    ReopenedDurable(c.medium, f.tables);
  }

  /** What the recovery theorem asks of a write: lengths fit, and the key can stand in a manifest line. */
  predicate Admissible(op: Op) {
    match op
    case PutOp(key, value) => Writable(Set(key, value)) && CleanKey(key)
    case DeleteOp(key) => Writable(Del(key)) && CleanKey(key)
    case _ => true
  }

  /** The sizes of the files this step writes fit the manifest's field. */
  ghost predicate FittingStep(c: Setup, db: Db, op: Op) {
    match op
    case PutOp(key, value) =>
      var w := Write(c, db, Set(key, value), key, Data(value)); |w.memtable| >= c.limit ==> FlushFits(c, w)
    case DeleteOp(key) =>
      var w := Write(c, db, Del(key), key, Tombstone); |w.memtable| >= c.limit ==> FlushFits(c, w)
    case FlushOp => FlushFits(c, db)
    case CompactOp => PickedL0Fits(c.medium, db.tables) && PickedL1Fits(c.medium, PickedL0(c.medium, db.tables))
    case CrashOp => true
    case ShutdownOp => FlushFits(c, db)
  }

  lemma {:induction false} WriteStepRecovers(c: Setup, db: Db, spec: map<string, string>, parts: seq<seq<Command>>, command: Command)
    returns (parts': seq<seq<Command>>)
    requires ValidMedium(c.medium) && Recovers(c, db, spec, parts) && Sorted(db.memtable)
    requires Writable(command) && CleanKey(command.key)
    requires var w := Write(c, db, command, command.key, ValueOf(command)); |w.memtable| >= c.limit ==> FlushFits(c, w)
    ensures var value := ValueOf(command);
            Recovers(c, MaybeFlush(c, Write(c, db, command, command.key, value)),
                     if value.Data? then spec[command.key := value.text] else spec - {command.key}, parts')
  {
    hide Recovers, ValidMedium, Flush, CleanKey, FlushFits;
    parts' := WriteRecovers(c, db, spec, parts, command);
    var value := ValueOf(command);
    var w := Write(c, db, command, command.key, value);
    InsertUpdates(db.memtable, command.key, value);
    InsertNotEmpty(db.memtable, command.key, value);
    if |w.memtable| >= c.limit {
      FlushRecovers(c, w, if value.Data? then spec[command.key := value.text] else spec - {command.key}, parts');
    }
  }

  lemma {:induction false} CompactRecovers(c: Setup, db: Db, spec: map<string, string>, parts: seq<seq<Command>>)
    requires ValidMedium(c.medium) && Recovers(c, db, spec, parts) && FittingStep(c, db, CompactOp)
    ensures Recovers(c, CompactTables(c, db), spec, parts)
  {
    hide Durable, MaybeCompact, PickedL0Fits, PickedL1Fits, HoldsLog, Logged, LastWins;
    MaybeCompactDurable(c.medium, db.tables);
  }

  lemma {:induction false} ShownIsSorted(c: Setup, db: Db, spec: map<string, string>)
    requires Shows(c, db, spec)
    ensures Sorted(db.memtable)
  {
  }

  lemma {:induction false} PutRecovers(c: Setup, db: Db, spec: map<string, string>, parts: seq<seq<Command>>, key: string, value: string)
    returns (parts': seq<seq<Command>>)
    requires ValidMedium(c.medium) && Shows(c, db, spec) && Recovers(c, db, spec, parts)
    requires Admissible(PutOp(key, value)) && FittingStep(c, db, PutOp(key, value))
    ensures Recovers(c, Step(c, db, PutOp(key, value)), Apply(spec, PutOp(key, value)), parts')
  {
    ShownIsSorted(c, db, spec);
    hide Recovers, Shows, MaybeFlush, Write, Writable, CleanKey, Sorted, FlushFits, ValidMedium;
    parts' := WriteStepRecovers(c, db, spec, parts, Set(key, value));
  }

  lemma {:induction false} DeleteRecovers(c: Setup, db: Db, spec: map<string, string>, parts: seq<seq<Command>>, key: string)
    returns (parts': seq<seq<Command>>)
    requires ValidMedium(c.medium) && Shows(c, db, spec) && Recovers(c, db, spec, parts)
    requires Admissible(DeleteOp(key)) && FittingStep(c, db, DeleteOp(key))
    ensures Recovers(c, Step(c, db, DeleteOp(key)), Apply(spec, DeleteOp(key)), parts')
  {
    ShownIsSorted(c, db, spec);
    hide Recovers, Shows, MaybeFlush, Write, Writable, CleanKey, Sorted, FlushFits, ValidMedium;
    parts' := WriteStepRecovers(c, db, spec, parts, Del(key));
  }

  lemma {:induction false} FlushOpRecovers(c: Setup, db: Db, spec: map<string, string>, parts: seq<seq<Command>>)
    requires ValidMedium(c.medium) && Shows(c, db, spec) && Recovers(c, db, spec, parts) && FittingStep(c, db, FlushOp)
    ensures Recovers(c, Step(c, db, FlushOp), Apply(spec, FlushOp), parts)
  {
    ShownIsSorted(c, db, spec);
    hide Recovers, Shows, Flush, Sorted, FlushFits, ValidMedium;
    FlushRecovers(c, db, spec, parts);
  }

  lemma {:induction false} CompactOpRecovers(c: Setup, db: Db, spec: map<string, string>, parts: seq<seq<Command>>)
    requires ValidMedium(c.medium) && Recovers(c, db, spec, parts) && FittingStep(c, db, CompactOp)
    ensures Recovers(c, Step(c, db, CompactOp), Apply(spec, CompactOp), parts)
  {
    hide Recovers, CompactTables, FittingStep, ValidMedium;
    CompactRecovers(c, db, spec, parts);
  }

  /** A step that is no restart. */
  lemma {:induction false} WorkRecovers(c: Setup, db: Db, spec: map<string, string>, parts: seq<seq<Command>>, op: Op)
    returns (parts': seq<seq<Command>>)
    requires ValidMedium(c.medium) && Shows(c, db, spec) && Recovers(c, db, spec, parts)
    requires SafeStep(c, db, op) && FittingStep(c, db, op) && Admissible(op) && !IsRestart(op)
    ensures Shows(c, Step(c, db, op), Apply(spec, op)) && Recovers(c, Step(c, db, op), Apply(spec, op), parts')
  {
    hide Recovers, Shows, Step, Apply, SafeStep, FittingStep, Admissible, ValidMedium;
    StepShows(c, db, spec, op);
    match op
    case PutOp(key, value) =>
      parts' := PutRecovers(c, db, spec, parts, key, value);
    case DeleteOp(key) =>
      parts' := DeleteRecovers(c, db, spec, parts, key);
    case FlushOp =>
      FlushOpRecovers(c, db, spec, parts);
      parts' := parts;
    case CompactOp =>
      CompactOpRecovers(c, db, spec, parts);
      parts' := parts;
  }

  lemma {:induction false} CrashOpShows(c: Setup, db: Db, spec: map<string, string>, parts: seq<seq<Command>>)
    returns (parts': seq<seq<Command>>)
    requires Shows(c, db, spec) && Recovers(c, db, spec, parts)
    ensures Shows(c, Step(c, db, CrashOp), Apply(spec, CrashOp)) && Recovers(c, Step(c, db, CrashOp), Apply(spec, CrashOp), parts')
  {
    hide Recovers, Shows, Restart;
    parts' := RestartShows(c, db, spec, parts);
  }

  lemma {:induction false} ShutdownOpShows(c: Setup, db: Db, spec: map<string, string>, parts: seq<seq<Command>>)
    returns (parts': seq<seq<Command>>)
    requires ValidMedium(c.medium) && Shows(c, db, spec) && Recovers(c, db, spec, parts)
    requires SafeStep(c, db, ShutdownOp) && FittingStep(c, db, ShutdownOp)
    ensures Shows(c, Step(c, db, ShutdownOp), Apply(spec, ShutdownOp))
    ensures Recovers(c, Step(c, db, ShutdownOp), Apply(spec, ShutdownOp), parts')
  {
    hide Recovers, Shows, Restart, Shutdown, FlushIsSafe, FlushFits, ValidMedium;
    parts' := ShutdownShows(c, db, spec, parts);
  }

  /** Every step, restarts included, shows the next map and stays recoverable. */
  lemma {:induction false} StepRecovers(c: Setup, db: Db, spec: map<string, string>, parts: seq<seq<Command>>, op: Op)
    returns (parts': seq<seq<Command>>)
    requires ValidMedium(c.medium) && Shows(c, db, spec) && Recovers(c, db, spec, parts)
    requires SafeStep(c, db, op) && FittingStep(c, db, op) && Admissible(op)
    ensures Shows(c, Step(c, db, op), Apply(spec, op)) && Recovers(c, Step(c, db, op), Apply(spec, op), parts')
  {
    hide Recovers, Shows, Step, Apply, SafeStep, FittingStep, Admissible, ValidMedium;
    if op.CrashOp? {
      parts' := CrashOpShows(c, db, spec, parts);
    } else if op.ShutdownOp? {
      parts' := ShutdownOpShows(c, db, spec, parts);
    } else {
      parts' := WorkRecovers(c, db, spec, parts, op);
    }
  }

  /** The engine in a fresh directory. */
  function Fresh(id: nat): Db {
    Db([], Manager([], [], [], "", "", 0, map[], id), OpenLog(map[]))
  }

  lemma {:induction false} FreshDurable(m: Medium, id: nat)
    ensures Durable(m, Fresh(id).tables)
  {
    LoadEmpty();
  }

  lemma {:induction false} FreshMap(c: Setup, id: nat)
    ensures Shows(c, Fresh(id), map[])
  {
  }

  lemma {:induction false} FreshShows(c: Setup, id: nat) returns (parts: seq<seq<Command>>)
    ensures Shows(c, Fresh(id), map[]) && Recovers(c, Fresh(id), map[], parts)
  {
    hide Durable, HoldsLog, OpenLog, Shows;
    parts := EmptyLogHolds(c.crc, map[]);
    FreshDurable(c.medium, id);
    FreshMap(c, id);
    NothingReplayed();
  }

  /** What the recovery theorem asks of a run: safe picks, sizes that fit, admissible writes. */
  ghost predicate GoodRun(c: Setup, db: Db, ops: seq<Op>) {
    && SafeRun(c, db, ops)
    && forall i :: 0 <= i < |ops| ==> FittingStep(c, Run(c, db, ops[..i]), ops[i]) && Admissible(ops[i])
  }

  lemma {:induction false} GoodPrefix(c: Setup, db: Db, ops: seq<Op>)
    requires GoodRun(c, db, ops) && ops != []
    ensures var n := |ops| - 1;
            && GoodRun(c, db, ops[..n]) && SafeStep(c, Run(c, db, ops[..n]), ops[n])
            && FittingStep(c, Run(c, db, ops[..n]), ops[n]) && Admissible(ops[n])
  {
    hide SafeRun, SafeStep, FittingStep, Admissible, Run;
    var n := |ops| - 1;
    SafePrefix(c, db, ops);
    forall i | 0 <= i < n
      ensures FittingStep(c, Run(c, db, ops[..n][..i]), ops[..n][i]) && Admissible(ops[..n][i])
    {
      assert ops[..n][..i] == ops[..i];
    }
  }

  /** From a fresh directory, over every run of puts, deletes, flushes, compactions, crashes and shutdowns,
      the engine shows the plain map of its writes, and the next restart will too. */
  lemma {:induction false} RunRecovers(c: Setup, id: nat, ops: seq<Op>) returns (parts: seq<seq<Command>>)
    requires ValidMedium(c.medium) && GoodRun(c, Fresh(id), ops)
    ensures Shows(c, Run(c, Fresh(id), ops), ApplyAll(map[], ops))
    ensures Recovers(c, Run(c, Fresh(id), ops), ApplyAll(map[], ops), parts)
  {
    hide Shows, Recovers, ValidMedium, GoodRun, SafeStep, FittingStep, Admissible, Step, Fresh;
    if ops == [] {
      parts := FreshShows(c, id);
    } else {
      var n := |ops| - 1;
      GoodPrefix(c, Fresh(id), ops);
      parts := RunRecovers(c, id, ops[..n]);
      parts := StepRecovers(c, Run(c, Fresh(id), ops[..n]), ApplyAll(map[], ops[..n]), parts, ops[n]);
    }
  }

  /** What a point lookup on the raw map answers is what the plain map says; a tombstone counts as absent. */
  lemma {:induction false} LookupShows(c: Setup, db: Db, spec: map<string, string>, key: string)
    requires Shows(c, db, spec)
    ensures Lookup(spec, key) == Answer(Lookup(RawDb(db), key))
  {
  }

  /** In a recoverable state a lookup finds every table's file as the table lists it. */
  lemma {:induction false} RecoversReadable(c: Setup, db: Db, spec: map<string, string>, parts: seq<seq<Command>>)
    requires Recovers(c, db, spec, parts)
    ensures Readable(db.tables)
  {
    DurableMatches(c.medium, db.tables);
  }
}
