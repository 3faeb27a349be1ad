/** Table files that no level lists: a run leaves none behind, so that start-up has none to adopt. */
module Strays {
  import opened Seqs
  import opened SortedMap
  import opened Records
  import opened TableBuilder
  import opened Splitting
  import opened Selection
  import opened Leveling
  import opened ManagerState
  import opened Durability
  import opened DurableSteps
  import opened Picker
  import opened Compactions
  import opened Commands
  import opened WriteAheadLog
  import opened EngineState
  import opened Recovery

  function Paths(ts: seq<SSTable>): set<string> {
    set t | t in ts :: t.path
  }

  /** Every file belongs to a listed table, or lies under one of these paths. */
  ghost predicate ListedBut(s: Manager, extra: set<string>) {
    s.disk.Keys <= Paths(AllTables(s)) + extra
  }

  lemma {:induction false} PathsConcat(a: seq<SSTable>, b: seq<SSTable>)
    ensures Paths(a + b) == Paths(a) + Paths(b)
  {
    forall p | p in Paths(a) + Paths(b)
      ensures p in Paths(a + b)
    {
      var t :| (t in a || t in b) && t.path == p;
      assert t in a + b;
    }
  }

  lemma {:induction false} PathsOne(t: SSTable)
    ensures Paths([t]) == {t.path}
  {
    assert t in [t];
  }

  lemma {:induction false} PathsNone()
    ensures Paths([]) == {}
  {
  }

  lemma {:induction false} PathsOfLevels(s: Manager)
    ensures Paths(AllTables(s)) == Paths(s.l0) + Paths(s.l1) + Paths(s.l2)
  {
    PathsConcat(s.l0, s.l1);
    PathsConcat(s.l0 + s.l1, s.l2);
  }

  lemma {:induction false} InstallListed(s: Manager, t: SSTable, extra: set<string>)
    requires ListedBut(s, extra)
    ensures ListedBut(InstallTable(s, t), extra - {t.path})
  {
    hide Paths, AllTables;
    InstalledOne(s, t);
    PathsOfLevels(s);
    PathsOfLevels(WithTable(s, t));
    PathsConcat(LevelList(s, t.level), [t]);
    PathsOne(t);
  }

  /** Installing tables lists their files. */
  lemma {:induction false} InstallsListed(s: Manager, ts: seq<SSTable>, extra: set<string>)
    requires ListedBut(s, extra)
    ensures ListedBut(InstallTables(s, ts), extra - Paths(ts))
  {
    hide ListedBut, InstallTable, Paths;
    if ts == [] {
      PathsNone();
      assert extra - {} == extra;
    } else {
      var n := |ts| - 1;
      InstallsListed(s, ts[..n], extra);
      InstallListed(InstallTables(s, ts[..n]), ts[n], extra - Paths(ts[..n]));
      InitLast(ts);
      PathsConcat(ts[..n], [ts[n]]);
      PathsOne(ts[n]);
      assert extra - Paths(ts[..n]) - {ts[n].path} == extra - Paths(ts);
    }
  }

  /** Taking a table out deletes its file with it. */
  lemma {:induction false} WithoutListed(s: Manager, level: Level, i: nat, extra: set<string>)
    requires i < |LevelList(s, level)| && ListedBut(s, extra)
    ensures ListedBut(WithoutTable(s, level, i), extra)
  {
    var x, y := Around(s, level, i);
    var t := LevelList(s, level)[i];
    hide Paths, AllTables;
    PathsConcat(x, [t]);
    PathsConcat(x + [t], y);
    PathsConcat(x, y);
    PathsOne(t);
  }

  lemma {:induction false} RemovesListed(s: Manager, level: Level, idxs: seq<nat>, extra: set<string>)
    requires Descending(idxs, |LevelList(s, level)|) && ListedBut(s, extra)
    ensures ListedBut(RemoveTables(s, level, idxs), extra)
    decreases |idxs|
  {
    hide ListedBut;
    if idxs != [] {
      WithoutListed(s, level, idxs[0], extra);
      RemovesListed(WithoutTable(s, level, idxs[0]), level, idxs[1..], extra);
    }
  }

  lemma {:induction false} StoredPaths(disk: map<string, StoredFile>, ts: seq<SSTable>)
    ensures Store(disk, ts).Keys == disk.Keys + Paths(ts)
  {
    hide Paths;
    if ts == [] {
      PathsNone();
    } else {
      var n := |ts| - 1;
      StoredPaths(disk, ts[..n]);
      InitLast(ts);
      PathsConcat(ts[..n], [ts[n]]);
      PathsOne(ts[n]);
    }
  }

  /** A merge writes files that no level lists yet. */
  lemma {:induction false} WrittenListed(m: Medium, s: Manager, tables: seq<SSTable>, level: Level, drop: bool)
    requires ListedBut(s, {})
    ensures var s0 := s.(nextId := s.nextId + 1);
            ListedBut(WriteMerged(m, s0, tables, level, drop), Paths(WrittenTables(m, s0, tables, level, drop)))
  {
    var s0 := s.(nextId := s.nextId + 1);
    hide Paths, WrittenTables, MergedRecords, Split, FullCount, Store;
    StoredPaths(s.disk, WrittenTables(m, s0, tables, level, drop));
    PathsOfLevels(s);
    PathsOfLevels(WriteMerged(m, s0, tables, level, drop));
  }

  lemma {:induction false} CompactL0Listed(m: Medium, s: Manager, c: seq<nat>)
    requires InRange(s.l0, c) && Distinct(c) && ListedBut(s, {})
    ensures ListedBut(SizeTieredCompactL0(m, s, c), {})
  {
    hide ListedBut, Paths, WriteMerged, WrittenTables, RemoveTables, InstallTables;
    if c != [] {
      var w, outs := WrittenL0(m, s, c), OutputL0(m, s, c);
      WrittenListed(m, s, Pick(s.l0, c), L1, false);
      SortDescendingExact(c, |s.l0|);
      OutputLevels(m, s, c);
      RemovesListed(w, L0, SortDescending(c), Paths(outs));
      InstallsListed(RemoveTables(w, L0, SortDescending(c)), outs, Paths(outs));
      assert Paths(outs) - Paths(outs) == {};
    }
  }

  lemma {:induction false} OutputLevels(m: Medium, s: Manager, c: seq<nat>)
    requires InRange(s.l0, c)
    ensures forall j :: 0 <= j < |OutputL0(m, s, c)| ==> OutputL0(m, s, c)[j].level == L1
    ensures var w := WrittenL0(m, s, c); w.l0 == s.l0 && w.l1 == s.l1 && w.l2 == s.l2
  {
  }

  lemma {:induction false} WrittenL1Levels(m: Medium, s: Manager, i: nat, c: seq<nat>)
    requires i < |s.l1| && InRange(s.l2, c)
    ensures var w := WrittenL1(m, s, i, c); w.l0 == s.l0 && w.l1 == s.l1 && w.l2 == s.l2
  {
  }

  lemma {:induction false} CompactL1Listed(m: Medium, s: Manager, i: nat, c: seq<nat>)
    requires i < |s.l1| && InRange(s.l2, c) && Ascending(c) && ListedBut(s, {})
    ensures ListedBut(CompactL1ToL2(m, s, i, c), {})
  {
    hide ListedBut, Paths, WriteMerged, WrittenTables, RemoveTables, InstallTables;
    var w, outs := WrittenL1(m, s, i, c), OutputL1(m, s, i, c);
    WrittenListed(m, s, InputL1(s, i, c), L2, true);
    WrittenL1Levels(m, s, i, c);
    RemoveTablesFrame(w, L2, Reverse(c));
    var r := RemoveTables(w, L2, Reverse(c));
    RemovesListed(w, L2, Reverse(c), Paths(outs));
    assert LevelList(r, L1) == w.l1;
    WithoutListed(r, L1, i, Paths(outs));
    InstallsListed(WithoutTable(r, L1, i), outs, Paths(outs));
    assert Paths(outs) - Paths(outs) == {};
  }

  lemma {:induction false} PickedL0Listed(m: Medium, s: Manager)
    requires ListedBut(s, {})
    ensures ListedBut(PickedL0(m, s), {})
  {
    hide ListedBut, SizeTieredCompactL0;
    CandidatesExact(s.l0);
    match PickL0(s.l0)
    case None =>
    case Some(c) => CompactL0Listed(m, s, c);
  }

  lemma {:induction false} PickedL1Listed(m: Medium, s: Manager)
    requires ListedBut(s, {})
    ensures ListedBut(PickedL1(m, s), {})
  {
    hide ListedBut, CompactL1ToL2;
    match PickL1(s.l1, s.l2)
    case None =>
    case Some(c) =>
      OverlapIndicesExact(s.l2, s.l1[0].minKey, s.l1[0].maxKey);
      CompactL1Listed(m, s, 0, c);
  }

  lemma {:induction false} FlushedListed(m: Medium, s: Manager, data: seq<Record>)
    requires data != [] && ListedBut(s, {})
    ensures ListedBut(Flushed(m, s, data), {})
  {
    hide Paths, WriteFile;
    var t := FlushedTable(m, s.nextId, data);
    PathsOfLevels(s);
    PathsOfLevels(Flushed(m, s, data));
    PathsConcat(s.l0, [t]);
    PathsOne(t);
  }

  lemma {:induction false} FlushListed(c: Setup, db: Db)
    requires ListedBut(db.tables, {})
    ensures ListedBut(Flush(c, db).tables, {})
  {
    hide ListedBut, Flushed, PickedL0;
    if db.memtable != [] {
      FlushedListed(c.medium, db.tables, db.memtable);
      PickedL0Listed(c.medium, Flushed(c.medium, db.tables, db.memtable));
    }
  }

  /** A reload lists the same paths. */
  lemma {:induction false} ReopenedListed(m: Medium, s: Manager)
    requires Durable(m, s) && ListedBut(s, {})
    ensures ListedBut(Reopened(s), {})
  {
    ReopenedLevels(m, s);
    hide Paths, Reopened, Durable, Backed, Reloaded;
    SamePathSets(m, s.disk, s.l0);
    SamePathSets(m, s.disk, s.l1);
    SamePathSets(m, s.disk, s.l2);
    PathsOfLevels(s);
    PathsOfLevels(Reopened(s));
    ReopenedDisk(s);
  }

  lemma {:induction false} ReopenedDisk(s: Manager)
    ensures Reopened(s).disk == s.disk
  {
  }

  lemma {:induction false} SamePathSets(m: Medium, disk: map<string, StoredFile>, ts: seq<SSTable>)
    requires forall t :: t in ts ==> Backed(m, disk, t)
    ensures Paths(Reloaded(ts, disk)) == Paths(ts)
  {
    ReloadedExact(m, disk, ts);
    hide Reloaded, Backed, Paths, Stack, AllValid;
    var r := Reloaded(ts, disk);
    assert forall i :: 0 <= i < |ts| ==> SameFields(r[i], ts[i]);
    PathsWithin(r, ts);
    PathsWithin(ts, r);
  }

  lemma {:induction false} PathsWithin(a: seq<SSTable>, b: seq<SSTable>)
    requires |a| == |b| && forall i :: 0 <= i < |a| ==> a[i].path == b[i].path
    ensures Paths(a) <= Paths(b)
  {
    forall p | p in Paths(a)
      ensures p in Paths(b)
    {
      var t :| t in a && t.path == p;
      var i :| 0 <= i < |a| && a[i] == t;
      assert b[i] in b;
    }
  }

  lemma {:induction false} RestartListed(c: Setup, db: Db)
    requires Durable(c.medium, db.tables) && ListedBut(db.tables, {})
    ensures ListedBut(Restart(c, db).tables, {})
  {
    hide Durable, ListedBut;
    ReopenedListed(c.medium, db.tables);
    assert Restart(c, db).tables == Reopened(db.tables);
  }

  lemma {:induction false} WriteListed(c: Setup, db: Db, command: Command, key: string, value: Value)
    requires ListedBut(db.tables, {})
    ensures ListedBut(MaybeFlush(c, Write(c, db, command, key, value)).tables, {})
  {
    hide ListedBut, Flush, AppendCommand, Insert;
    InsertNotEmpty(db.memtable, key, value);
    FlushListed(c, Write(c, db, command, key, value));
  }

  lemma {:induction false} CompactListed(c: Setup, db: Db)
    requires ListedBut(db.tables, {})
    ensures ListedBut(CompactTables(c, db).tables, {})
  {
    hide ListedBut, PickedL0, PickedL1;
    PickedL0Listed(c.medium, db.tables);
    PickedL1Listed(c.medium, PickedL0(c.medium, db.tables));
  }

  lemma {:induction false} FlushedStaysDurable(c: Setup, db: Db, spec: map<string, string>, parts: seq<seq<Command>>)
    requires ValidMedium(c.medium) && Shows(c, db, spec) && Recovers(c, db, spec, parts) && FlushFits(c, db)
    ensures Durable(c.medium, Flush(c, db).tables)
  {
    ShownIsSorted(c, db, spec);
    FlushRecovers(c, db, spec, parts);
    hide Flush, Durable, Shows, ValidMedium, FlushFits;
  }

  lemma {:induction false} ShutdownListed(c: Setup, db: Db, spec: map<string, string>, parts: seq<seq<Command>>)
    requires ValidMedium(c.medium) && Shows(c, db, spec) && Recovers(c, db, spec, parts)
    requires FlushFits(c, db) && ListedBut(db.tables, {})
    ensures ListedBut(Restart(c, Shutdown(c, db)).tables, {})
  {
    hide ListedBut, Flush, Durable, Restart, Shows, Recovers, ValidMedium, FlushFits;
    FlushedStaysDurable(c, db, spec, parts);
    FlushListed(c, db);
    ShutdownTables(c, db);
    RestartListed(c, Shutdown(c, db));
  }

  lemma {:induction false} ShutdownTables(c: Setup, db: Db)
    ensures Shutdown(c, db).tables == Flush(c, db).tables
  {
    hide PickedL0, Flushed, CheckpointLog, ResetLog;
  }

  lemma {:induction false} StepListed(c: Setup, db: Db, spec: map<string, string>, parts: seq<seq<Command>>, op: Op)
    requires ValidMedium(c.medium) && Shows(c, db, spec) && Recovers(c, db, spec, parts)
    requires FittingStep(c, db, op) && ListedBut(db.tables, {})
    ensures ListedBut(Step(c, db, op).tables, {})
  {
    hide ListedBut, Flush, MaybeFlush, Write, CompactTables, Restart, Shutdown, Shows, FlushFits;
    match op
    case PutOp(key, value) => WriteListed(c, db, Set(key, value), key, Data(value));
    case DeleteOp(key) => WriteListed(c, db, Del(key), key, Tombstone);
    case FlushOp => FlushListed(c, db);
    case CompactOp => CompactListed(c, db);
    case CrashOp =>
      assert Durable(c.medium, db.tables);
      hide Recovers, Durable;
      RestartListed(c, db);
    case ShutdownOp =>
      hide Recovers;
      ShutdownListed(c, db, spec, parts);
  }

  /** No run leaves an unlisted table file with records, so that the scan for them at start-up adopts none. */
  lemma {:induction false} RunListed(c: Setup, id: nat, ops: seq<Op>)
    requires ValidMedium(c.medium) && GoodRun(c, Fresh(id), ops)
    ensures ListedBut(Run(c, Fresh(id), ops).tables, {})
  {
    hide Shows, Recovers, ValidMedium, GoodRun, SafeStep, FittingStep, Admissible, Step;
    if ops != [] {
      hide ListedBut, Fresh;
      var n := |ops| - 1;
      GoodPrefix(c, Fresh(id), ops);
      RunListed(c, id, ops[..n]);
      var parts := RunRecovers(c, id, ops[..n]);
      StepListed(c, Run(c, Fresh(id), ops[..n]), ApplyAll(map[], ops[..n]), parts, ops[n]);
    }
  }
}
