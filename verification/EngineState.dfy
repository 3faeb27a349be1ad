/** The engine's state and its steps as functions, and the map a reader sees through every run. */
module EngineState {
  import opened SortedMap
  import opened Records
  import opened Commands
  import opened WriteAheadLog
  import opened TableBuilder
  import opened Leveling
  import opened Manifests
  import opened ManagerState
  import opened Durability
  import opened Compactions

  /** The memtable, the table manager and the write-ahead log. */
  datatype Db = Db(memtable: seq<Record>, tables: Manager, wal: Log)

  /** What stays fixed: the medium, the checksum and the number of entries that makes a memtable flush. */
  datatype Setup = Setup(medium: Medium, crc: Checksum, limit: nat)

  /** The table a flush writes; its filter in memory is sized for at least eight keys. */
  function FlushedTable(m: Medium, id: nat, data: seq<Record>): SSTable
    requires data != []
  {
    var f := WriteFile(m, data, |data|);
    SSTable(TablePath(L0, id), f.blocks, FilterFor(m, if |data| < 8 then 8 else |data|, data), L0,
            data[0].key, data[|data| - 1].key, m.fileBytes(data, |data|))
  }

  /** The manager with the memtable's file on disk and listed, before any compaction. */
  function Flushed(m: Medium, s: Manager, data: seq<Record>): Manager
    requires data != []
  {
    var t := FlushedTable(m, s.nextId, data);
    WithTable(s.(nextId := s.nextId + 1, disk := s.disk[t.path := WriteFile(m, data, |data|)]), t)
  }

  ghost function Flush(c: Setup, db: Db): Db {
    if db.memtable == [] then db
    else db.(memtable := [], tables := PickedL0(c.medium, Flushed(c.medium, db.tables, db.memtable)))
  }

  /** At the limit an id is taken and the memtable flushed; with a limit of zero the id may be taken in vain. */
  ghost function MaybeFlush(c: Setup, db: Db): Db {
    if |db.memtable| < c.limit then db
    else if db.memtable == [] then db.(tables := db.tables.(nextId := db.tables.nextId + 1))
    else Flush(c, db)
  }

  /** The log first, then the memtable. */
  function Write(c: Setup, db: Db, command: Command, key: string, value: Value): Db {
    Db(Insert(db.memtable, key, value), db.tables, AppendCommand(c.crc, db.wal, command))
  }

  ghost function Put(c: Setup, db: Db, key: string, value: string): Db {
    MaybeFlush(c, Write(c, db, Set(key, value), key, Data(value)))
  }

  ghost function Delete(c: Setup, db: Db, key: string): Db {
    MaybeFlush(c, Write(c, db, Del(key), key, Tombstone))
  }

  ghost function CompactTables(c: Setup, db: Db): Db {
    db.(tables := MaybeCompact(c.medium, db.tables))
  }

  /** The raw map: the memtable over the tables. */
  ghost function RawDb(db: Db): map<string, Value> {
    Raw(db.tables) + Contents(db.memtable)
  }

  ghost predicate ValidDb(c: Setup, db: Db) {
    ValidLevels(c.medium, db.tables) && Sorted(db.memtable)
  }

  /** The database shows exactly `spec`. */
  ghost predicate Shows(c: Setup, db: Db, spec: map<string, string>) {
    ValidDb(c, db) && Live(RawDb(db)) == spec
  }

  lemma {:induction false} FlushedTableValid(m: Medium, id: nat, data: seq<Record>)
    requires ValidMedium(m) && Sorted(data) && data != []
    ensures var t := FlushedTable(m, id, data);
            && ValidTable(m.hasher, t) && RecordsOf(t) == data && t.level == L0
            && FilterCovers(m.hasher, WriteFile(m, data, |data|).bloom, data)
  {
    WriteFileExact(m, data, |data|);
    FilterForCovers(m, if |data| < 8 then 8 else |data|, data);
  }

  /** A flush moves the memtable's map into L0: nothing visible changes. */
  lemma {:induction false} FlushedKeeps(m: Medium, s: Manager, data: seq<Record>)
    requires ValidMedium(m) && ValidLevels(m, s) && Sorted(data) && data != []
    ensures ValidLevels(m, Flushed(m, s, data))
    ensures Raw(Flushed(m, s, data)) == Raw(s) + Contents(data)
  {
    var t := FlushedTable(m, s.nextId, data);
    FlushedTableValid(m, s.nextId, data);
    hide ValidTable, RecordsOf, Overlay, FlushedTable, BottomLevel;
    StackConcat(s.l0, [t]);
    assert Stack([t]) == [data];
    OverlayConcat(Stack(s.l0), [data]);
    OverlaySingle(data);
    UnionAssociates(Overlay(Stack(s.l2)) + Overlay(Stack(s.l1)), Overlay(Stack(s.l0)), Contents(data));
  }

  /** The L0 candidate looked at by the flush of this memtable is safe. */
  ghost predicate FlushIsSafe(c: Setup, db: Db) {
    db.memtable != [] ==> PickIsSafe(Flushed(c.medium, db.tables, db.memtable).l0)
  }

  lemma {:induction false} FlushShows(c: Setup, db: Db, spec: map<string, string>)
    requires ValidMedium(c.medium) && Shows(c, db, spec) && FlushIsSafe(c, db)
    ensures Shows(c, Flush(c, db), spec)
  {
    hide ValidLevels, PickedL0, PickIsSafe, Raw, Live, Flushed;
    if db.memtable != [] {
      FlushedKeeps(c.medium, db.tables, db.memtable);
      PickedL0Keeps(c.medium, Flushed(c.medium, db.tables, db.memtable));
      NothingOver(RawDb(db));
    }
  }

  lemma {:induction false} NothingOver(m: map<string, Value>)
    ensures m + Contents([]) == m
  {
  }

  lemma {:induction false} InsertNotEmpty(es: seq<Record>, key: string, value: Value)
    ensures Insert(es, key, value) != []
  {
  }

  lemma {:induction false} WriteShows(c: Setup, db: Db, spec: map<string, string>, command: Command, key: string,
                                      value: Value)
    requires Shows(c, db, spec)
    ensures Shows(c, Write(c, db, command, key, value), if value.Data? then spec[key := value.text] else spec - {key})
    ensures Write(c, db, command, key, value).memtable != []
  {
    InsertNotEmpty(db.memtable, key, value);
    hide ValidLevels, Sorted, Contents, Insert, Raw, AppendCommand;
    InsertUpdates(db.memtable, key, value);
    LiveUpdate(Raw(db.tables), Contents(db.memtable), key, value);
  }

  lemma {:induction false} LiveUpdate(base: map<string, Value>, newer: map<string, Value>, key: string, value: Value)
    ensures var was := Live(base + newer);
            Live(base + newer[key := value]) == if value.Data? then was[key := value.text] else was - {key}
  {
    var r := base + newer[key := value];
    assert r == (base + newer)[key := value];
  }

  /** What happens to an engine between two restarts. */
  datatype Op =
    | PutOp(key: string, value: string)
    | DeleteOp(key: string)
    | FlushOp
    | CompactOp
    | CrashOp
    | ShutdownOp

  /** The plain map the operations are about. */
  function Apply(spec: map<string, string>, op: Op): map<string, string> {
    match op
    case PutOp(key, value) => spec[key := value]
    case DeleteOp(key) => spec - {key}
    case _ => spec
  }

  function ApplyAll(spec: map<string, string>, ops: seq<Op>): map<string, string> {
    if ops == [] then spec else Apply(ApplyAll(spec, ops[..|ops| - 1]), ops[|ops| - 1])
  }

  /** The memtable a restart rebuilds from the commands of the log. */
  function Replayed(commands: seq<Command>): seq<Record> {
    if commands == [] then []
    else
      var t, c := Replayed(commands[..|commands| - 1]), commands[|commands| - 1];
      match c
      case Set(key, value) => Insert(t, key, Data(value))
      case Del(key) => Insert(t, key, Tombstone)
      case _ => t
  }

  /** Start-up over the files on disk: the manifest's tables, the log's commands. The id counter goes on. */
  function Restart(c: Setup, db: Db): Db {
    var s, wal := db.tables, OpenLog(db.wal.segments);
    var d := Replay(ManifestRecords(s), s.disk);
    var commands := LoadAll(c.crc, wal);
    Db(if commands.Some? then Replayed(commands.value) else [],
       s.(l0 := d.l0, l1 := d.l1, l2 := d.l2, operations := 0), wal)
  }

  /** The files of `db` are what a process starting with this manager and this log found. */
  predicate StartsFrom(db: Db, s: Manager, wal: Log) {
    db.tables.(l0 := [], l1 := [], l2 := [], operations := 0) == s && OpenLog(db.wal.segments) == wal
  }

  /** With nothing in the memtable a shutdown does nothing; otherwise it flushes and clears the log. */
  ghost function Shutdown(c: Setup, db: Db): Db {
    if db.memtable == [] then db
    else
      var f := Flush(c, db);
      f.(wal := CheckpointLog(ResetLog(f.wal)))
  }

  ghost function Step(c: Setup, db: Db, op: Op): Db {
    match op
    case PutOp(key, value) => Put(c, db, key, value)
    case DeleteOp(key) => Delete(c, db, key)
    case FlushOp => Flush(c, db)
    case CompactOp => CompactTables(c, db)
    case CrashOp => Restart(c, db)
    case ShutdownOp => Restart(c, Shutdown(c, db))
  }

  ghost function Run(c: Setup, db: Db, ops: seq<Op>): Db {
    if ops == [] then db else Step(c, Run(c, db, ops[..|ops| - 1]), ops[|ops| - 1])
  }

  /** The size-tiered picks of this step are safe. */
  ghost predicate SafeStep(c: Setup, db: Db, op: Op) {
    match op
    case PutOp(key, value) =>
      var w := Write(c, db, Set(key, value), key, Data(value)); |w.memtable| >= c.limit ==> FlushIsSafe(c, w)
    case DeleteOp(key) =>
      var w := Write(c, db, Del(key), key, Tombstone); |w.memtable| >= c.limit ==> FlushIsSafe(c, w)
    case FlushOp => FlushIsSafe(c, db)
    case CompactOp => PickIsSafe(db.tables.l0)
    case CrashOp => true
    case ShutdownOp => FlushIsSafe(c, db)
  }

  predicate IsRestart(op: Op) {
    op.CrashOp? || op.ShutdownOp?
  }

  /** Each step changes the visible map at the one key it names, or not at all. */
  lemma {:induction false} StepShows(c: Setup, db: Db, spec: map<string, string>, op: Op)
    requires ValidMedium(c.medium) && Shows(c, db, spec) && SafeStep(c, db, op) && !IsRestart(op)
    ensures Shows(c, Step(c, db, op), Apply(spec, op))
  {
    hide Shows, FlushIsSafe, Flush;
    match op
    case PutOp(key, value) =>
      WriteShows(c, db, spec, Set(key, value), key, Data(value));
      var w := Write(c, db, Set(key, value), key, Data(value));
      if |w.memtable| >= c.limit {
        FlushShows(c, w, Apply(spec, op));
      }
    case DeleteOp(key) =>
      WriteShows(c, db, spec, Del(key), key, Tombstone);
      var w := Write(c, db, Del(key), key, Tombstone);
      if |w.memtable| >= c.limit {
        FlushShows(c, w, Apply(spec, op));
      }
    case FlushOp =>
      FlushShows(c, db, spec);
    case CompactOp =>
      CompactShows(c, db, spec);
  }

  lemma {:induction false} CompactShows(c: Setup, db: Db, spec: map<string, string>)
    requires ValidMedium(c.medium) && Shows(c, db, spec) && PickIsSafe(db.tables.l0)
    ensures Shows(c, CompactTables(c, db), spec)
  {
    hide ValidLevels, MaybeCompact, PickIsSafe, Raw;
    MaybeCompactKeeps(c.medium, db.tables);
    LiveUnder(Raw(db.tables), Raw(MaybeCompact(c.medium, db.tables)), Contents(db.memtable));
  }

  /** The picks of a whole run are safe. */
  ghost predicate SafeRun(c: Setup, db: Db, ops: seq<Op>) {
    forall i :: 0 <= i < |ops| ==> SafeStep(c, Run(c, db, ops[..i]), ops[i])
  }

  lemma {:induction false} SafePrefix(c: Setup, db: Db, ops: seq<Op>)
    requires SafeRun(c, db, ops) && ops != []
    ensures SafeRun(c, db, ops[..|ops| - 1])
    ensures SafeStep(c, Run(c, db, ops[..|ops| - 1]), ops[|ops| - 1])
  {
    var n := |ops| - 1;
    forall i | 0 <= i < n
      ensures SafeStep(c, Run(c, db, ops[..n][..i]), ops[..n][i])
    {
      assert ops[..n][..i] == ops[..i];
    }
  }

  /** Over every run between restarts the engine shows the plain map its puts and deletes describe. */
  lemma {:induction false} RunShows(c: Setup, db: Db, spec: map<string, string>, ops: seq<Op>)
    requires ValidMedium(c.medium) && Shows(c, db, spec) && SafeRun(c, db, ops)
    requires forall i :: 0 <= i < |ops| ==> !IsRestart(ops[i])
    ensures Shows(c, Run(c, db, ops), ApplyAll(spec, ops))
  {
    hide Shows, SafeRun, SafeStep, Step;
    if ops != [] {
      var n := |ops| - 1;
      SafePrefix(c, db, ops);
      RunShows(c, db, spec, ops[..n]);
      StepShows(c, Run(c, db, ops[..n]), ApplyAll(spec, ops[..n]), ops[n]);
    }
  }

  predicate IsWrite(op: Op) {
    op.PutOp? || op.DeleteOp?
  }

  /** Smaller than the limit, or empty. */
  predicate Bounded(c: Setup, db: Db) {
    |db.memtable| < c.limit || db.memtable == []
  }

  /** A write leaves the memtable bounded, whatever it was, and no step but a restart makes it larger. */
  lemma {:induction false} StepBounds(c: Setup, db: Db, op: Op)
    requires IsWrite(op) || (Bounded(c, db) && !IsRestart(op))
    ensures Bounded(c, Step(c, db, op))
  {
    hide PickedL0, Flushed, MaybeCompact, AppendCommand, Insert;
  }

  /** So it is bounded whenever something has been written since the last restart. */
  lemma {:induction false} RunBounds(c: Setup, db: Db, ops: seq<Op>, i: nat)
    requires i < |ops| && IsWrite(ops[i]) && forall j :: i < j < |ops| ==> !IsRestart(ops[j])
    ensures Bounded(c, Run(c, db, ops))
  {
    hide Step, Bounded;
    var n := |ops| - 1;
    if i < n {
      RunBounds(c, db, ops[..n], i);
    }
    StepBounds(c, Run(c, db, ops[..n]), ops[n]);
  }
}
