/** A crash inside a flush. */
module CrashFlushes {
  import opened SortedMap
  import opened Records
  import opened Commands
  import opened WriteAheadLog
  import opened TableBuilder
  import opened Selection
  import opened ManagerState
  import opened Durability
  import opened Decimal
  import opened DurableSteps
  import opened Compactions
  import opened EngineState
  import opened Recovery
  import opened Strays
  import opened CrashAnswers
  import opened CrashSteps
  import opened CrashWrites

  /** The manager in the middle of a flush: the memtable's file is written, and not yet listed. */
  function MidFlush(m: Medium, s: Manager, data: seq<Record>): Manager
    requires data != []
  {
    s.(disk := s.disk[TablePath(L0, s.nextId) := WriteFile(m, data, |data|)], nextId := s.nextId + 1)
  }

  lemma {:induction false} MidFlushStrays(m: Medium, s: Manager, data: seq<Record>, logged: map<string, Value>)
    requires ValidMedium(m) && ListedBut(s, {}) && Sorted(data) && data != [] && Contents(data).Keys <= logged.Keys
    ensures StraysLogged(MidFlush(m, s, data), logged)
  {
    var f := WriteFile(m, data, |data|);
    WriteFileExact(m, data, |data|);
    hide WriteFile, Contents, Sorted, Paths;
    forall t, k | IsStray(MidFlush(m, s, data), t) && HasKey(RecordsOf(t), k)
      ensures k in logged
    {
      assert AllTables(MidFlush(m, s, data)) == AllTables(s);
      assert t.path == TablePath(L0, s.nextId) && t.blocks == f.blocks;
    }
  }

  lemma {:induction false} MidFlushDurable(m: Medium, s: Manager, data: seq<Record>)
    requires Durable(m, s) && data != []
    ensures Durable(m, MidFlush(m, s, data))
  {
    hide Durable, WriteFile;
    WriteKeepsDurable(m, s, L0, WriteFile(m, data, |data|));
  }

  lemma {:induction false} MidFlushStands(m: Medium, s: Manager, data: seq<Record>, logged: map<string, Value>)
    requires ValidMedium(m) && Durable(m, s) && ListedBut(s, {})
    requires Sorted(data) && data != [] && Contents(data).Keys <= logged.Keys
    ensures Standing(m, s, MidFlush(m, s, data), logged)
  {
    ListsSame(s, MidFlush(m, s, data), logged);
    hide Durable, StraysLogged, SameUnlogged, MidFlush, ValidMedium, Sorted, ListedBut;
    MidFlushStrays(m, s, data, logged);
    MidFlushDurable(m, s, data);
  }

  /** The crash leaves the file alone, or cuts off the line that lists it. */
  predicate TearsFlush(m: Medium, s: Manager, data: seq<Record>, tear: Tear)
    requires data != []
  {
    && Cuts(MidFlush(m, s, data), tear)
    && (tear == Between || (tear.InListing? && tear.table == FlushedTable(m, s.nextId, data)))
  }

  lemma {:induction false} FlushedIsNew(m: Medium, s: Manager, data: seq<Record>)
    requires ValidMedium(m) && Durable(m, s) && Sorted(data) && data != [] && CleanKeys(data) && m.fileBytes(data, |data|) <= U64_MAX
    ensures NewTo(m, MidFlush(m, s, data), FlushedTable(m, s.nextId, data))
    ensures WithTable(MidFlush(m, s, data), FlushedTable(m, s.nextId, data)) == Flushed(m, s, data)
  {
    hide Durable, Backed, WriteFile, Sorted, CleanKeys, ValidMedium;
    FlushedBacked(m, s.disk, s.nextId, data);
    WriteKeepsDurable(m, s, L0, WriteFile(m, data, |data|));
    NewPathApart(m, s, FlushedTable(m, s.nextId, data));
    assert AllTables(MidFlush(m, s, data)) == AllTables(s);
  }

  lemma {:induction false} AddedLogged(a: map<string, Value>, b: map<string, Value>, logged: map<string, Value>)
    requires b.Keys <= logged.Keys
    ensures forall k :: k !in logged ==> Lookup(a + b, k) == Lookup(a, k)
  {
  }

  lemma {:induction false} NoStrays(s: Manager, logged: map<string, Value>)
    requires ListedBut(s, {})
    ensures StraysLogged(s, logged)
  {
    hide Paths;
  }

  lemma {:induction false} StandsAfterFlush(m: Medium, s: Manager, data: seq<Record>, tear: Tear, logged: map<string, Value>)
    requires ValidMedium(m) && Durable(m, s) && ValidLevels(m, s) && ListedBut(s, {}) && Sorted(data) && data != [] && CleanKeys(data)
    requires m.fileBytes(data, |data|) <= U64_MAX && Contents(data).Keys <= logged.Keys && TearsFlush(m, s, data, tear)
    ensures StandingAfter(m, s, MidFlush(m, s, data), tear, logged)
  {
    hide Durable, ValidLevels, ListedBut, MidFlush, FlushedTable, ValidMedium, Cuts, NewTo, WithTable, Flushed, Raw, StraysLogged, Sorted, CleanKeys, Contents;
    FlushedIsNew(m, s, data);
    FlushedKeeps(m, s, data);
    FlushedListed(m, s, data);
    NoStrays(Flushed(m, s, data), logged);
    AddedLogged(Raw(s), Contents(data), logged);
  }

  /** A crash inside a flush, with the memtable's file written and not yet listed, or in the middle of the line that lists
      it: scans and lookups answer as before, whether start-up can read the file or not. */
  lemma {:induction false} CrashInFlush(c: Setup, db: Db, spec: map<string, string>, parts: seq<seq<Command>>,
                                        tear: Tear, strays: seq<SSTable>, key: string)
    requires ValidMedium(c.medium) && Shows(c, db, spec) && Recovers(c, db, spec, parts) && ListedBut(db.tables, {})
    requires db.memtable != [] && c.medium.fileBytes(db.memtable, |db.memtable|) <= U64_MAX
    requires TearsFlush(c.medium, db.tables, db.memtable, tear)
    requires var r := Restart(c, db.(tables := Left(MidFlush(c.medium, db.tables, db.memtable), tear)));
             forall o :: o in strays ==> IsStray(r.tables, o)
    ensures var r := Adopt(Restart(c, db.(tables := Left(MidFlush(c.medium, db.tables, db.memtable), tear))), strays);
            Live(RawDb(r)) == spec && Answer(Search(c.medium.hasher, r, key)) == Lookup(spec, key)
  {
    var m, s, logged := c.medium, db.tables, Logged(parts);
    OpenedUp(c, db, spec, parts);
    ShownIsSorted(c, db, spec);
    MemtableClean(c, db, spec, parts);
    LoggedMemtable(c, db, spec, parts);
    hide Shows, Recovers, Durable, ValidLevels, ListedBut, MidFlush, ValidMedium, Survivable, Logged, IsStray, HoldsLog, Contents, Sorted,
         CleanKeys, Standing, StandingAfter, Left, Cuts, Restart;
    assert Possible(MidFlush(m, s, db.memtable), tear);
    MidFlushStands(m, s, db.memtable, logged);
    StandsAfterFlush(m, s, db.memtable, tear, logged);
    TearSurvives(m, s, MidFlush(m, s, db.memtable), tear, logged);
    RestartTables(c, db, Left(MidFlush(m, s, db.memtable), tear));
    CrashServes(c, db, spec, parts, Left(MidFlush(m, s, db.memtable), tear), strays, key);
  }

  lemma {:induction false} LoggedMemtable(c: Setup, db: Db, spec: map<string, string>, parts: seq<seq<Command>>)
    requires Recovers(c, db, spec, parts)
    ensures Contents(db.memtable).Keys <= Logged(parts).Keys
  {
    hide Durable, HoldsLog, Logged, Contents, LastWins, CleanLogged;
  }
  /** Levels in place of others, when they show the same and rebuild. */
  lemma {:induction false} InPlace(c: Setup, db: Db, spec: map<string, string>, parts: seq<seq<Command>>, t: Manager)
    requires Shows(c, db, spec) && Recovers(c, db, spec, parts) && ValidLevels(c.medium, t) && Durable(c.medium, t)
    requires Raw(t) + Contents(db.memtable) == Raw(db.tables) + Contents(db.memtable)
    ensures Shows(c, db.(tables := t), spec) && Recovers(c, db.(tables := t), spec, parts)
  {
    hide Durable, ValidLevels, Raw, Contents, Logged, HoldsLog, LastWins, CleanLogged, Within, Sorted;
  }

  /** Once the file is listed the state is as good as before, so that a crash inside the merge a flush starts is one
      inside any other L0 compaction. */
  lemma {:induction false} FlushedInBetween(c: Setup, db: Db, spec: map<string, string>, parts: seq<seq<Command>>)
    requires ValidMedium(c.medium) && Shows(c, db, spec) && Recovers(c, db, spec, parts) && ListedBut(db.tables, {})
    requires db.memtable != [] && c.medium.fileBytes(db.memtable, |db.memtable|) <= U64_MAX
    ensures var d := db.(tables := Flushed(c.medium, db.tables, db.memtable));
            Shows(c, d, spec) && Recovers(c, d, spec, parts) && ListedBut(d.tables, {})
  {
    ShownIsSorted(c, db, spec);
    hide Shows, Recovers, Durable, ValidLevels, ListedBut, Flushed, Raw, Contents, HoldsLog, CleanKeys, Sorted, ValidMedium;
    MemtableClean(c, db, spec, parts);
    OpenedUp(c, db, spec, parts);
    FlushedDurable(c.medium, db.tables, db.memtable);
    FlushedKeeps(c.medium, db.tables, db.memtable);
    FlushedListed(c.medium, db.tables, db.memtable);
    TwiceOver(Raw(db.tables), Contents(db.memtable));
    InPlace(c, db, spec, parts, Flushed(c.medium, db.tables, db.memtable));
  }

  lemma {:induction false} TwiceOver(a: map<string, Value>, b: map<string, Value>)
    ensures a + b + b == a + b
  {
  }
}
