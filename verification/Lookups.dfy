/** Point lookup, newest source first, and why the range filter, the Bloom filter and the cache do not show. */
module Lookups {
  import opened Seqs
  import opened Order
  import opened SortedMap
  import opened Records
  import opened BloomFilters
  import opened BlockCaches
  import opened Tables
  import opened TableBuilder
  import opened Selection
  import opened Leveling
  import opened ManagerState
  import opened Splitting
  import opened Durability
  import opened DurableSteps
  import opened Picker
  import opened Compactions
  import opened EngineState
  import Commands
  import WriteAheadLog

  /** The first table of the list that knows the key. */
  function FirstHit(ts: seq<SSTable>, key: string): Option<Value> {
    if ts == [] then None
    else
      var r := Find(RecordsOf(ts[0]), key);
      if r.Some? then r else FirstHit(ts[1..], key)
  }

  /** The tables a reader looks into, newest first: those whose range and filter admit the key. */
  function Candidates(h: Hasher, ts: seq<SSTable>, key: string): seq<SSTable> {
    if ts == [] then []
    else
      var t := ts[|ts| - 1];
      (if ContainsKeyRange(t, key) && Holds(h, t.bloom, key) then [t] else []) + Candidates(h, ts[..|ts| - 1], key)
  }

  lemma {:induction false} FirstHitConcat(a: seq<SSTable>, b: seq<SSTable>, key: string)
    ensures FirstHit(a + b, key) == if FirstHit(a, key).Some? then FirstHit(a, key) else FirstHit(b, key)
  {
    if a == [] {
      assert a + b == b;
    } else {
      FirstHitConcat(a[1..], b, key);
      assert (a + b)[1..] == a[1..] + b;
    }
  }

  lemma {:induction false} FirstHitOne(t: SSTable, key: string)
    ensures FirstHit([t], key) == Find(RecordsOf(t), key)
  {
    assert [t][1..] == [];
  }

  /** A table the filters turn away does not hold the key. */
  lemma {:induction false} FiltersAreSound(h: Hasher, t: SSTable, key: string)
    requires ValidTable(h, t) && !(ContainsKeyRange(t, key) && Holds(h, t.bloom, key))
    ensures Find(RecordsOf(t), key) == None
  {
    FindIsLookup(RecordsOf(t), key);
    if key in Contents(RecordsOf(t)) {
      KeysInRange(h, t, key);
    }
  }

  /** The candidates are exactly the tables whose range holds the key and whose filter does not deny it. */
  lemma {:induction false} CandidatesExactly(h: Hasher, ts: seq<SSTable>, key: string)
    ensures forall t :: t in Candidates(h, ts, key) <==>
              t in ts && AtMost(t.minKey, key) && AtMost(key, t.maxKey) && Holds(h, t.bloom, key)
  {
    hide Holds, Less;
    if ts != [] {
      var t := ts[|ts| - 1];
      LessTotal(t.minKey, key);
      LessTotal(key, t.maxKey);
      Strict();
      LessIrreflexive(key);
      CandidatesExactly(h, ts[..|ts| - 1], key);
      InitLast(ts);
      assert forall x :: x in ts <==> x in ts[..|ts| - 1] || x == t;
    }
  }

  /** Searching the candidates of a level is looking the key up in the level's raw map. */
  lemma {:induction false} CandidatesDecide(h: Hasher, ts: seq<SSTable>, key: string)
    requires AllValid(h, ts)
    ensures FirstHit(Candidates(h, ts, key), key) == Lookup(Overlay(Stack(ts)), key)
  {
    if ts != [] {
      var n := |ts| - 1;
      var t := ts[n];
      CandidatesDecide(h, ts[..n], key);
      assert Stack(ts)[..n] == Stack(ts[..n]);
      FindIsLookup(RecordsOf(t), key);
      hide ContainsKeyRange, Holds, Contents, RecordsOf, Find;
      if ContainsKeyRange(t, key) && Holds(h, t.bloom, key) {
        FirstHitConcat([t], Candidates(h, ts[..n], key), key);
        FirstHitOne(t, key);
      } else {
        FiltersAreSound(h, t, key);
        assert [] + Candidates(h, ts[..n], key) == Candidates(h, ts[..n], key);
      }
    }
  }

  /** All candidates of the three levels, in the order they are searched. */
  function AllCandidates(h: Hasher, s: Manager, key: string): seq<SSTable> {
    Candidates(h, s.l0, key) + Candidates(h, s.l1, key) + Candidates(h, s.l2, key)
  }

  lemma {:induction false} AllCandidatesDecide(m: Medium, s: Manager, key: string)
    requires ValidLevels(m, s)
    ensures FirstHit(AllCandidates(m.hasher, s, key), key) == Lookup(Raw(s), key)
  {
    hide Overlay, ValidTable, Candidates, FirstHit;
    var h := m.hasher;
    CandidatesDecide(h, s.l0, key);
    CandidatesDecide(h, s.l1, key);
    CandidatesDecide(h, s.l2, key);
    FirstHitConcat(Candidates(h, s.l0, key) + Candidates(h, s.l1, key), Candidates(h, s.l2, key), key);
    FirstHitConcat(Candidates(h, s.l0, key), Candidates(h, s.l1, key), key);
  }

  /** What is read of one block: None when the file is gone or has no block there. */
  function ReadBlock(disk: map<string, StoredFile>, path: string, offset: nat): Option<seq<Record>> {
    if path in disk then BlockAt(disk[path].blocks, offset) else None
  }

  function BlockAt(blocks: seq<Block>, offset: nat): Option<seq<Record>> {
    if blocks == [] then None
    else if blocks[0].offset == offset then Some(blocks[0].records)
    else BlockAt(blocks[1..], offset)
  }

  /** Every listed table has its own blocks in its file. */
  ghost predicate FilesMatch(s: Manager) {
    forall t :: t in s.l0 || t in s.l1 || t in s.l2 ==> t.path in s.disk && s.disk[t.path].blocks == t.blocks
  }

  /** Tables match their files, and no file lies under a path to come. */
  ghost predicate Readable(s: Manager) {
    FilesMatch(s) && forall p :: p in s.disk ==> Issued(p, s.nextId)
  }

  /** What is cached for a file that still exists is what the file holds; nothing is cached for a path to come. */
  ghost predicate Coherent(cache: Cache, s: Manager) {
    forall k :: k in cache.blocks ==>
      Issued(k.path, s.nextId) && (k.path in s.disk ==> ReadBlock(s.disk, k.path, k.offset) == Some(cache.blocks[k]))
  }

  lemma {:induction false} BlockAtIndex(blocks: seq<Block>, i: nat)
    requires i < |blocks| && forall i, j :: 0 <= i < j < |blocks| ==> blocks[i].offset < blocks[j].offset
    ensures BlockAt(blocks, blocks[i].offset) == Some(blocks[i].records)
  {
    if i > 0 {
      BlockAtIndex(blocks[1..], i - 1);
    }
  }

  lemma {:induction false} TouchedCoherent(cache: Cache, s: Manager, key: CacheKey)
    requires Coherent(cache, s)
    ensures Coherent(Touched(cache, key), s)
  {
  }

  lemma {:induction false} StoredCoherent(cache: Cache, s: Manager, key: CacheKey, value: seq<Record>)
    requires Coherent(cache, s) && Issued(key.path, s.nextId) && ReadBlock(s.disk, key.path, key.offset) == Some(value)
    ensures Coherent(Stored(cache, key, value), s)
  {
  }

  /** From `s` to `t` files only disappear, or appear under paths not issued before. */
  ghost predicate Later(s: Manager, t: Manager) {
    && s.nextId <= t.nextId
    && forall p :: p in t.disk ==> (p in s.disk && t.disk[p] == s.disk[p]) || !Issued(p, s.nextId)
  }

  lemma {:induction false} LaterTransitive(s: Manager, t: Manager, u: Manager)
    requires Later(s, t) && Later(t, u)
    ensures Later(s, u)
  {
    forall p | p in u.disk
      ensures (p in s.disk && u.disk[p] == s.disk[p]) || !Issued(p, s.nextId)
    {
      if !(p in t.disk && u.disk[p] == t.disk[p]) && Issued(p, s.nextId) {
        IssuedLater(p, s.nextId, t.nextId);
      }
    }
  }

  /** Because paths are not reused, a coherent cache stays coherent. */
  lemma {:induction false} LaterKeepsCoherent(cache: Cache, s: Manager, t: Manager)
    requires Coherent(cache, s) && Later(s, t)
    ensures Coherent(cache, t)
  {
    forall k | k in cache.blocks
      ensures Issued(k.path, t.nextId)
      ensures k.path in t.disk ==> ReadBlock(t.disk, k.path, k.offset) == Some(cache.blocks[k])
    {
      IssuedLater(k.path, s.nextId, t.nextId);
    }
  }

  lemma {:induction false} StoreLater(disk: map<string, StoredFile>, ts: seq<SSTable>, n: nat)
    requires forall i :: 0 <= i < |ts| ==> !Issued(ts[i].path, n)
    ensures forall p :: p in Store(disk, ts) ==> (p in disk && Store(disk, ts)[p] == disk[p]) || !Issued(p, n)
  {
    if ts != [] {
      StoreLater(disk, ts[..|ts| - 1], n);
    }
  }

  lemma {:induction false} WriteMergedLater(m: Medium, s: Manager, tables: seq<SSTable>, level: Level, drop: bool)
    ensures Later(s, WriteMerged(m, s, tables, level, drop))
  {
    var ts := WrittenTables(m, s, tables, level, drop);
    hide MergedRecords, Split, FullCount, Issued;
    forall i | 0 <= i < |ts|
      ensures !Issued(ts[i].path, s.nextId)
    {
      FreshPath(level, s.nextId + i, s.nextId);
    }
    StoreLater(s.disk, ts, s.nextId);
  }

  lemma {:induction false} RemoveTablesLater(s: Manager, level: Level, idxs: seq<nat>)
    requires Descending(idxs, |LevelList(s, level)|)
    ensures Later(s, RemoveTables(s, level, idxs))
    decreases |idxs|
  {
    hide Issued;
    if idxs != [] {
      var r := WithoutTable(s, level, idxs[0]);
      RemoveTablesLater(r, level, idxs[1..]);
      LaterTransitive(s, r, RemoveTables(s, level, idxs));
    }
  }

  lemma {:induction false} InstallTablesDisk(s: Manager, ts: seq<SSTable>)
    ensures InstallTables(s, ts).disk == s.disk && InstallTables(s, ts).nextId == s.nextId
  {
    if ts != [] {
      InstallTablesDisk(s, ts[..|ts| - 1]);
    }
  }

  lemma {:induction false} CompactL0Later(m: Medium, s: Manager, c: seq<nat>)
    requires InRange(s.l0, c) && Selection.Distinct(c)
    ensures Later(s, SizeTieredCompactL0(m, s, c))
  {
    hide Issued, WriteMerged, WrittenTables, RemoveTables, InstallTables, Later;
    if c == [] {
      SameLater(s, s);
    } else {
      var s0, w := s.(nextId := s.nextId + 1), WrittenL0(m, s, c);
      SameLater(s, s0);
      WriteMergedLater(m, s0, Pick(s.l0, c), L1, false);
      LaterTransitive(s, s0, w);
      SortDescendingExact(c, |s.l0|);
      SameLists(m, s0, Pick(s.l0, c), L1, false);
      var r := RemoveTables(w, L0, SortDescending(c));
      RemoveTablesLater(w, L0, SortDescending(c));
      LaterTransitive(s, w, r);
      InstallTablesDisk(r, OutputL0(m, s, c));
      SameLater(r, InstallTables(r, OutputL0(m, s, c)));
      LaterTransitive(s, r, InstallTables(r, OutputL0(m, s, c)));
    }
  }

  lemma {:induction false} SameLater(s: Manager, t: Manager)
    requires t.disk == s.disk && s.nextId <= t.nextId
    ensures Later(s, t)
  {
  }

  lemma {:induction false} SameLists(m: Medium, s: Manager, tables: seq<SSTable>, level: Level, drop: bool)
    ensures var w := WriteMerged(m, s, tables, level, drop); w.l0 == s.l0 && w.l1 == s.l1 && w.l2 == s.l2
  {
  }

  lemma {:induction false} CompactL1Later(m: Medium, s: Manager, i: nat, c: seq<nat>)
    requires i < |s.l1| && InRange(s.l2, c) && Ascending(c)
    ensures Later(s, CompactL1ToL2(m, s, i, c))
  {
    hide Issued, WriteMerged, WrittenTables, RemoveTables, InstallTables, Later;
    var s0, w := s.(nextId := s.nextId + 1), WrittenL1(m, s, i, c);
    SameLater(s, s0);
    WriteMergedLater(m, s0, InputL1(s, i, c), L2, true);
    LaterTransitive(s, s0, w);
    SameLists(m, s0, InputL1(s, i, c), L2, true);
    var r := RemoveTables(w, L2, Reverse(c));
    RemoveTablesLater(w, L2, Reverse(c));
    RemoveTablesFrame(w, L2, Reverse(c));
    LaterTransitive(s, w, r);
    assert LevelList(r, L1) == w.l1;
    var q := WithoutTable(r, L1, i);
    RemovedLater(r, L1, i);
    LaterTransitive(s, r, q);
    InstallTablesDisk(q, OutputL1(m, s, i, c));
    SameLater(q, InstallTables(q, OutputL1(m, s, i, c)));
    LaterTransitive(s, q, InstallTables(q, OutputL1(m, s, i, c)));
  }

  lemma {:induction false} RemovedLater(s: Manager, level: Level, i: nat)
    requires i < |LevelList(s, level)|
    ensures Later(s, WithoutTable(s, level, i))
  {
  }

  lemma {:induction false} PickedL0Later(m: Medium, s: Manager)
    ensures Later(s, PickedL0(m, s))
  {
    hide Later, SizeTieredCompactL0;
    CandidatesExact(s.l0);
    match PickL0(s.l0)
    case None => SameLater(s, s);
    case Some(c) => CompactL0Later(m, s, c);
  }

  lemma {:induction false} PickedL1Later(m: Medium, s: Manager)
    ensures Later(s, PickedL1(m, s))
  {
    hide Later, CompactL1ToL2;
    match PickL1(s.l1, s.l2)
    case None => SameLater(s, s);
    case Some(c) =>
      OverlapIndicesExact(s.l2, s.l1[0].minKey, s.l1[0].maxKey);
      CompactL1Later(m, s, 0, c);
  }

  lemma {:induction false} FlushedLater(m: Medium, s: Manager, data: seq<Record>)
    requires data != []
    ensures Later(s, Flushed(m, s, data))
  {
    hide Issued;
    FreshPath(L0, s.nextId, s.nextId);
  }

  lemma {:induction false} FlushLater(c: Setup, db: Db)
    ensures Later(db.tables, Flush(c, db).tables)
  {
    hide Later, Flushed, PickedL0;
    if db.memtable == [] {
      SameLater(db.tables, db.tables);
    } else {
      var f := Flushed(c.medium, db.tables, db.memtable);
      FlushedLater(c.medium, db.tables, db.memtable);
      PickedL0Later(c.medium, f);
      LaterTransitive(db.tables, f, PickedL0(c.medium, f));
    }
  }

  /** The block cache is coherent after every step, whatever is flushed, merged or deleted. */
  lemma {:induction false} StepKeepsCoherent(c: Setup, db: Db, op: Op, cache: Cache)
    requires Coherent(cache, db.tables) && !IsRestart(op)
    ensures Coherent(cache, Step(c, db, op).tables)
  {
    hide Coherent, Later, Flush, MaybeCompact, WriteAheadLog.AppendCommand, SortedMap.Insert;
    var t := Step(c, db, op).tables;
    SameLater(db.tables, db.tables);
    match op {
      case PutOp(key, value) =>
        InsertNotEmpty(db.memtable, key, Data(value));
        FlushLater(c, Write(c, db, Commands.Set(key, value), key, Data(value)));
      case DeleteOp(key) =>
        InsertNotEmpty(db.memtable, key, Tombstone);
        FlushLater(c, Write(c, db, Commands.Del(key), key, Tombstone));
      case FlushOp =>
        FlushLater(c, db);
      case CompactOp =>
        CompactLater(c.medium, db.tables);
    }
    LaterKeepsCoherent(cache, db.tables, t);
  }

  lemma {:induction false} CompactLater(m: Medium, s: Manager)
    ensures Later(s, MaybeCompact(m, s))
  {
    hide Later, PickedL0, PickedL1;
    PickedL0Later(m, s);
    PickedL1Later(m, PickedL0(m, s));
    LaterTransitive(s, PickedL0(m, s), PickedL1(m, PickedL0(m, s)));
  }

  /** A durable manager's tables match their files. */
  lemma {:induction false} DurableMatches(m: Medium, s: Manager)
    requires Durable(m, s)
    ensures Readable(s)
  {
    hide ValidTable;
    LevelInAll(s, L0);
    LevelInAll(s, L1);
    LevelInAll(s, L2);
    forall t | t in s.l0 || t in s.l1 || t in s.l2
      ensures t.path in s.disk && s.disk[t.path].blocks == t.blocks
    {
      assert Backed(m, s.disk, t);
    }
  }
}
