/** A crash while the files of new tables are written, before any table is removed or listed. */
module CrashWrites {
  import opened SortedMap
  import opened Records
  import opened BloomFilters
  import opened TableBuilder
  import opened Splitting
  import opened Leveling
  import opened ManagerState
  import opened Durability
  import opened DurableSteps
  import opened DurableCompaction
  import opened Compactions
  import opened Commands
  import opened WriteAheadLog
  import opened EngineState
  import opened Recovery
  import opened Strays
  import opened CrashAnswers
  import opened CrashLevels

  lemma {:induction false} GroupsFilled(tables: seq<SSTable>, drop: bool)
    ensures NoneEmpty(Split(MergedRecords(tables, drop)))
  {
    SplitExact(MergedRecords(tables, drop));
  }

  /** A merge of these tables has written so many of its files. */
  ghost function MidMerge(m: Medium, s: Manager, tables: seq<SSTable>, level: Level, drop: bool, written: nat): Manager
    requires written <= |Split(MergedRecords(tables, drop))|
  {
    GroupsFilled(tables, drop);
    WithFiles(m, s.(nextId := s.nextId + 1), level, Split(MergedRecords(tables, drop))[..written])
  }

  lemma {:induction false} MidMergeLists(m: Medium, s: Manager, tables: seq<SSTable>, level: Level, drop: bool, written: nat)
    requires written <= |Split(MergedRecords(tables, drop))|
    ensures var t := MidMerge(m, s, tables, level, drop, written); t.l0 == s.l0 && t.l1 == s.l1 && t.l2 == s.l2
  {
    hide Store, CreatedTables, Split, MergedRecords;
  }

  lemma {:induction false} MidMergeDurable(m: Medium, s: Manager, tables: seq<SSTable>, level: Level, drop: bool, written: nat)
    requires Durable(m, s) && written <= |Split(MergedRecords(tables, drop))|
    ensures Durable(m, MidMerge(m, s, tables, level, drop, written))
  {
    hide Durable, WithFiles, Split, MergedRecords;
    GroupsFilled(tables, drop);
    LaterKeepsDurable(m, s, s.nextId + 1);
    WritesKeepDurable(m, s.(nextId := s.nextId + 1), level, Split(MergedRecords(tables, drop))[..written]);
  }

  lemma {:induction false} CreatedFirst(m: Medium, level: Level, id: nat, groups: seq<seq<Record>>, n: nat)
    requires NoneEmpty(groups) && n <= |groups|
    ensures CreatedTables(m, level, id, groups[..n]) == CreatedTables(m, level, id, groups)[..n]
  {
    hide NewTable;
  }

  lemma {:induction false} FirstFiles(m: Medium, s: Manager, level: Level, groups: seq<seq<Record>>, n: nat)
    requires NoneEmpty(groups) && n <= |groups|
    ensures var ts := CreatedTables(m, level, s.nextId, groups)[..n];
            WithFiles(m, s, level, groups[..n]).disk == Store(s.disk, ts) && DistinctPaths(ts)
  {
    CreatedFirst(m, level, s.nextId, groups, n);
    CreatedPaths(m, level, s.nextId, groups[..n]);
    hide CreatedTables, Store, DistinctPaths;
  }

  lemma {:induction false} StoredListed(s: Manager, t: Manager, ts: seq<SSTable>)
    requires ListedBut(s, {}) && t.disk == Store(s.disk, ts) && t.l0 == s.l0 && t.l1 == s.l1 && t.l2 == s.l2 && DistinctPaths(ts)
    ensures ListedBut(t, Paths(ts)) && Filed(t.disk, ts)
  {
    hide Paths, Store, DistinctPaths;
    StoredFiles(s.disk, ts);
    StoredPaths(s.disk, ts);
    PathsOfLevels(s);
    PathsOfLevels(t);
  }

  /** The files that are there are those of the first tables. */
  lemma {:induction false} FirstListed(m: Medium, s: Manager, level: Level, groups: seq<seq<Record>>, n: nat)
    requires ListedBut(s, {}) && NoneEmpty(groups) && n <= |groups|
    ensures var t, ts := WithFiles(m, s, level, groups[..n]), CreatedTables(m, level, s.nextId, groups)[..n];
            ListedBut(t, Paths(ts)) && Filed(t.disk, ts)
  {
    FirstFiles(m, s, level, groups, n);
    FilesLists(m, s, level, groups[..n]);
    hide CreatedTables, Paths, Store, DistinctPaths, ListedBut, Filed, WithFiles;
    StoredListed(s, WithFiles(m, s, level, groups[..n]), CreatedTables(m, level, s.nextId, groups)[..n]);
  }

  lemma {:induction false} FilesLists(m: Medium, s: Manager, level: Level, groups: seq<seq<Record>>)
    requires NoneEmpty(groups)
    ensures var t := WithFiles(m, s, level, groups); t.l0 == s.l0 && t.l1 == s.l1 && t.l2 == s.l2
  {
    hide Store, CreatedTables;
  }

  lemma {:induction false} WrittenKeys(m: Medium, s: Manager, tables: seq<SSTable>, level: Level, drop: bool, written: nat)
    requires ValidMedium(m)
    ensures var outs := WrittenTables(m, s, tables, level, drop);
            written <= |outs| ==> KeysWithin(outs[..written], tables)
  {
    hide WrittenTables, Overlay, Split, MergedRecords, AllValid, AscendingRanges, ValidMedium, Stack;
    WrittenExact(m, s, tables, level, drop);
    var outs := WrittenTables(m, s, tables, level, drop);
    if written <= |outs| {
      PrefixRestricts(m.hasher, outs, written);
    }
  }

  ghost predicate KeysWithin(a: seq<SSTable>, b: seq<SSTable>) {
    forall k :: k in Overlay(Stack(a)) ==> k in Overlay(Stack(b))
  }

  lemma {:induction false} FirstStrays(m: Medium, s: Manager, level: Level, groups: seq<seq<Record>>, n: nat,
                                       tables: seq<SSTable>, logged: map<string, Value>)
    requires ListedBut(s, {}) && NoneEmpty(groups) && n <= |groups| && KeysLogged(tables, logged)
    requires KeysWithin(CreatedTables(m, level, s.nextId, groups)[..n], tables)
    ensures StraysLogged(WithFiles(m, s, level, groups[..n]), logged)
  {
    hide ListedBut, Filed, Paths, WithFiles, CreatedTables, KeysLogged, StraysLogged, Overlay, Stack;
    FirstListed(m, s, level, groups, n);
    var t := WithFiles(m, s, level, groups[..n]);
    LosesNothing(t);
    NewStrays(t, t, CreatedTables(m, level, s.nextId, groups)[..n], tables, logged);
  }

  lemma {:induction false} MidMergeStrays(m: Medium, s: Manager, tables: seq<SSTable>, level: Level, drop: bool, written: nat, logged: map<string, Value>)
    requires ValidMedium(m) && ListedBut(s, {}) && written <= |Split(MergedRecords(tables, drop))| && KeysLogged(tables, logged)
    ensures StraysLogged(MidMerge(m, s, tables, level, drop, written), logged)
  {
    hide ListedBut, WithFiles, CreatedTables, Split, MergedRecords, KeysLogged, StraysLogged, ValidMedium, KeysWithin, NoneEmpty;
    GroupsFilled(tables, drop);
    ListedLater(s, s.nextId + 1);
    WrittenKeys(m, s.(nextId := s.nextId + 1), tables, level, drop, written);
    FirstStrays(m, s.(nextId := s.nextId + 1), level, Split(MergedRecords(tables, drop)), written, tables, logged);
  }

  lemma {:induction false} ListedLater(s: Manager, n: nat)
    requires ListedBut(s, {})
    ensures ListedBut(s.(nextId := n), {})
  {
    assert AllTables(s.(nextId := n)) == AllTables(s);
  }

  lemma {:induction false} LosesNothing(t: Manager)
    ensures OnlyLoses(t, t)
  {
  }

  lemma {:induction false} SameLists(h: Hasher, s: Manager, t: Manager)
    requires t.l0 == s.l0 && t.l1 == s.l1 && t.l2 == s.l2
    ensures Raw(t) == Raw(s)
  {
  }

  lemma {:induction false} ListsSame(s: Manager, t: Manager, logged: map<string, Value>)
    requires t.l0 == s.l0 && t.l1 == s.l1 && t.l2 == s.l2
    ensures SameUnlogged(s, t, logged)
  {
  }

  /** With the lists as they were, a lookup of any key but the empty one answers as before, whatever the log knows. */
  lemma {:induction false} FilesOnly(c: Setup, db: Db, spec: map<string, string>, parts: seq<seq<Command>>,
                                     t: Manager, strays: seq<SSTable>, key: string)
    requires Shows(c, db, spec) && Recovers(c, db, spec, parts) && Durable(c.medium, t) && key != ""
    requires t.l0 == db.tables.l0 && t.l1 == db.tables.l1 && t.l2 == db.tables.l2
    requires forall o :: o in strays ==> IsStray(Restart(c, db.(tables := t)).tables, o)
    ensures Answer(Search(c.medium.hasher, Adopt(Restart(c, db.(tables := t)), strays), key)) == Lookup(spec, key)
  {
    SameLists(c.medium.hasher, db.tables, t);
    hide Shows, Recovers, Durable, Search, Raw, ValidLists, Reopened, Logged, IsStray;
    ReopenedLists(c.medium, t);
    RestartAnswers(c, db, spec, parts, t, strays, key);
    if key !in Logged(parts) {
      UnloggedAnswer(c, db, spec, parts, key);
    }
  }

  /** A crash while a compaction writes its files: lookups answer as before, and so do scans when the log knows every key of
      the tables that are merged. */
  lemma {:induction false} CrashInMerge(c: Setup, db: Db, spec: map<string, string>, parts: seq<seq<Command>>,
                                        tables: seq<SSTable>, level: Level, drop: bool, written: nat, strays: seq<SSTable>, key: string)
    requires ValidMedium(c.medium) && Shows(c, db, spec) && Recovers(c, db, spec, parts) && ListedBut(db.tables, {})
    requires written <= |Split(MergedRecords(tables, drop))|
    requires var r := Restart(c, db.(tables := MidMerge(c.medium, db.tables, tables, level, drop, written)));
             forall o :: o in strays ==> IsStray(r.tables, o)
    ensures var r := Adopt(Restart(c, db.(tables := MidMerge(c.medium, db.tables, tables, level, drop, written))), strays);
            && (key != "" ==> Answer(Search(c.medium.hasher, r, key)) == Lookup(spec, key))
            && (KeysLogged(tables, Logged(parts)) ==>
                Live(RawDb(r)) == spec && Answer(Search(c.medium.hasher, r, key)) == Lookup(spec, key))
  {
    OpenedUp(c, db, spec, parts);
    var m, s, t := c.medium, db.tables, MidMerge(c.medium, db.tables, tables, level, drop, written);
    MidMergeLists(m, s, tables, level, drop, written);
    MidMergeDurable(m, s, tables, level, drop, written);
    hide Shows, Recovers, Durable, ValidLevels, ListedBut, MidMerge, KeysLogged, ValidMedium, Restart, Survivable, Logged, IsStray, HoldsLog,
         MergedRecords, Split, SameUnlogged, StraysLogged, Search, Reopened;
    if key != "" {
      FilesOnly(c, db, spec, parts, t, strays, key);
    }
    if KeysLogged(tables, Logged(parts)) {
      MidMergeStrays(m, s, tables, level, drop, written, Logged(parts));
      ListsSame(s, t, Logged(parts));
      DurableSurvives(m, s, t, Logged(parts));
      RestartTables(c, db, t);
      CrashServes(c, db, spec, parts, t, strays, key);
    }
  }

  lemma {:induction false} RestartTables(c: Setup, db: Db, t: Manager)
    ensures Restart(c, db.(tables := t)).tables == Reopened(t)
  {
  }
}
