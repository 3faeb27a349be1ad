/** A compaction as a whole keeps the manager's invariant and the bottom level. */
module DurableCompaction {
  import opened Seqs
  import opened SortedMap
  import opened Records
  import opened Decimal
  import opened TableBuilder
  import opened Splitting
  import opened Selection
  import opened Leveling
  import opened ManagerState
  import opened Durability
  import opened DurableSteps

  /** Everything a table file needs from its records. */
  ghost predicate GoodGroup(g: seq<Record>) {
    Sorted(g) && g != [] && CleanKeys(g)
  }

  lemma {:induction false} NewTableBacked(m: Medium, disk: map<string, StoredFile>, level: Level, id: nat, g: seq<Record>, expected: nat)
    requires ValidMedium(m) && GoodGroup(g) && m.fileBytes(g, expected) <= U64_MAX
    requires var t := NewTable(m, level, id, g, expected); t.path in disk && disk[t.path] == StoredFile(t.blocks, t.bloom)
    ensures Backed(m, disk, NewTable(m, level, id, g, expected))
    ensures RecordsOf(NewTable(m, level, id, g, expected)) == g
  {
    WriteFileExact(m, g, expected);
  }

  lemma {:induction false} CreatedPrefix(m: Medium, level: Level, id: nat, groups: seq<seq<Record>>)
    requires groups != [] && NoneEmpty(groups)
    ensures var n, ts := |groups| - 1, CreatedTables(m, level, id, groups);
            ts[..n] == CreatedTables(m, level, id, groups[..n]) && ts[n] == NewTable(m, level, id + n, groups[n], TARGET_TABLE_SIZE)
  {
  }

  ghost function WithFiles(m: Medium, s: Manager, level: Level, groups: seq<seq<Record>>): Manager
    requires NoneEmpty(groups)
  {
    s.(disk := Store(s.disk, CreatedTables(m, level, s.nextId, groups)), nextId := s.nextId + |groups|)
  }

  lemma {:induction false} WithFilesStep(m: Medium, s: Manager, level: Level, groups: seq<seq<Record>>)
    requires groups != [] && NoneEmpty(groups)
    ensures var n, w := |groups| - 1, WithFiles(m, s, level, groups[..|groups| - 1]);
            var t := NewTable(m, level, s.nextId + n, groups[n], TARGET_TABLE_SIZE);
            w.nextId == s.nextId + n &&
            WithFiles(m, s, level, groups) ==
            w.(disk := w.disk[TablePath(level, w.nextId) := StoredFile(t.blocks, t.bloom)], nextId := w.nextId + 1)
  {
    hide NewTable;
    CreatedPrefix(m, level, s.nextId, groups);
    assert TablePath(level, s.nextId + |groups| - 1) == CreatedTables(m, level, s.nextId, groups)[|groups| - 1].path by {
      NewTablePath(m, level, s.nextId + |groups| - 1, groups[|groups| - 1]);
    }
  }

  lemma {:induction false} NewTablePath(m: Medium, level: Level, id: nat, g: seq<Record>)
    requires g != []
    ensures NewTable(m, level, id, g, TARGET_TABLE_SIZE).path == TablePath(level, id)
  {
  }

  lemma {:induction false} NoFiles(m: Medium, s: Manager, level: Level)
    ensures WithFiles(m, s, level, []) == s
  {
    assert CreatedTables(m, level, s.nextId, []) == [];
  }

  /** Writing the groups under consecutive fresh ids. */
  lemma {:induction false} WritesKeepDurable(m: Medium, s: Manager, level: Level, groups: seq<seq<Record>>)
    requires Durable(m, s) && NoneEmpty(groups)
    ensures Durable(m, WithFiles(m, s, level, groups))
  {
    hide Durable, WithFiles, NewTable;
    if groups == [] {
      NoFiles(m, s, level);
    } else {
      var n := |groups| - 1;
      var t := NewTable(m, level, s.nextId + n, groups[n], TARGET_TABLE_SIZE);
      WritesKeepDurable(m, s, level, groups[..n]);
      WithFilesStep(m, s, level, groups);
      var w := WithFiles(m, s, level, groups[..n]);
      WriteKeepsDurable(m, w, level, StoredFile(t.blocks, t.bloom));
      var path := TablePath(level, w.nextId);
      SameDurable(m, w.(disk := w.disk[path := StoredFile(t.blocks, t.bloom)], nextId := w.nextId + 1),
                  WithFiles(m, s, level, groups));
    }
  }

  lemma {:induction false} StoredFiles(disk: map<string, StoredFile>, ts: seq<SSTable>)
    requires DistinctPaths(ts)
    ensures forall t :: t in ts ==> t.path in Store(disk, ts) && Store(disk, ts)[t.path] == StoredFile(t.blocks, t.bloom)
  {
    if ts != [] {
      StoredFiles(disk, ts[..|ts| - 1]);
      InitLast(ts);
    }
  }

  lemma {:induction false} CreatedPaths(m: Medium, level: Level, id: nat, groups: seq<seq<Record>>)
    requires NoneEmpty(groups)
    ensures var ts := CreatedTables(m, level, id, groups);
            DistinctPaths(ts) && forall i :: 0 <= i < |ts| ==> ts[i].path == TablePath(level, id + i)
  {
    var ts := CreatedTables(m, level, id, groups);
    forall i, j | 0 <= i < j < |ts|
      ensures ts[i].path != ts[j].path
    {
      if TablePath(level, id + i) == TablePath(level, id + j) {
        PathInjective(level, id + i, level, id + j);
      }
    }
  }

  lemma {:induction false} GroupCount(groups: seq<seq<Record>>)
    requires SplitShape(groups)
    ensures |groups| <= 1 + FullCount(groups)
  {
    if groups != [] {
      AllFullCount(groups[..|groups| - 1]);
    }
  }

  lemma {:induction false} AllFullCount(groups: seq<seq<Record>>)
    requires forall i :: 0 <= i < |groups| ==> Full(groups[i])
    ensures FullCount(groups) == |groups|
  {
    if groups != [] {
      AllFullCount(groups[..|groups| - 1]);
    }
  }

  ghost predicate CleanMap(m: map<string, Value>) {
    forall k :: k in m ==> CleanKey(k)
  }

  lemma {:induction false} OverlayClean(tables: seq<seq<Record>>)
    requires AllSorted(tables) && forall i :: 0 <= i < |tables| ==> CleanKeys(tables[i])
    ensures CleanMap(Overlay(tables))
  {
    forall k | k in Overlay(tables)
      ensures CleanKey(k)
    {
      var i := OverlayOrigin(tables, k);
      ContentsLists(tables[i]);
      var j :| 0 <= j < |tables[i]| && tables[i][j].key == k;
    }
  }

  /** The groups written by a merge of good tables are good. */
  lemma {:induction false} SplitGood(merged: seq<Record>)
    requires Sorted(merged) && CleanMap(Contents(merged))
    ensures forall i :: 0 <= i < |Split(merged)| ==> GoodGroup(Split(merged)[i])
  {
    var groups := Split(merged);
    SplitExact(merged);
    GroupsAscend(groups);
    ContentsLists(merged);
    forall i | 0 <= i < |groups|
      ensures CleanKeys(groups[i])
    {
      forall x | 0 <= x < |groups[i]|
        ensures CleanKey(groups[i][x].key)
      {
        var p := ConcatIndex(groups, i, x);
      }
    }
  }

  lemma {:induction false} InputsGood(m: Medium, disk: map<string, StoredFile>, tables: seq<SSTable>)
    requires forall t :: t in tables ==> Backed(m, disk, t)
    ensures AllSorted(Stack(tables)) && CleanMap(Overlay(Stack(tables)))
  {
    forall i | 0 <= i < |tables|
      ensures Sorted(Stack(tables)[i]) && CleanKeys(Stack(tables)[i])
    {
      assert tables[i] in tables;
    }
    OverlayClean(Stack(tables));
  }

  /** Each written table is backed and new. */
  lemma {:induction false} CreatedGood(m: Medium, disk: map<string, StoredFile>, level: Level, id: nat, groups: seq<seq<Record>>)
    requires ValidMedium(m) && NoneEmpty(groups) && GroupsFit(m, groups)
    requires forall i :: 0 <= i < |groups| ==> GoodGroup(groups[i])
    ensures var ts := CreatedTables(m, level, id, groups);
            DistinctPaths(ts) && forall t :: t in ts ==> Backed(m, Store(disk, ts), t) && !Issued(t.path, id)
  {
    hide Backed, GoodGroup, Issued, Store;
    var ts := CreatedTables(m, level, id, groups);
    var stored := Store(disk, ts);
    CreatedPaths(m, level, id, groups);
    StoredFiles(disk, ts);
    forall i | 0 <= i < |ts|
      ensures Backed(m, stored, ts[i]) && !Issued(ts[i].path, id)
    {
      assert ts[i] in ts;
      NewTableBacked(m, stored, level, id + i, groups[i], TARGET_TABLE_SIZE);
      FreshPath(level, id + i, id);
    }
  }

  /** Writing merged tables keeps the invariant. */
  lemma {:induction false} WriteMergedKeepsDurable(m: Medium, s: Manager, tables: seq<SSTable>, level: Level, drop: bool)
    requires ValidMedium(m) && Durable(m, s)
    requires forall t :: t in tables ==> t in AllTables(s)
    requires MergeFits(m, tables, drop)
    ensures var w, ts := WriteMerged(m, s, tables, level, drop), WrittenTables(m, s, tables, level, drop);
            && Durable(m, w) && DistinctPaths(ts)
            && (forall t :: t in ts ==> Backed(m, w.disk, t) && !Issued(t.path, s.nextId))
  {
    var merged := MergedRecords(tables, drop);
    InputsGood(m, s.disk, tables);
    SplitExact(merged);
    SplitGood(merged);
    WriteGroups(m, s, level, Split(merged));
  }

  lemma {:induction false} WriteGroups(m: Medium, s: Manager, level: Level, groups: seq<seq<Record>>)
    requires ValidMedium(m) && Durable(m, s) && SplitShape(groups) && GroupsFit(m, groups)
    requires forall i :: 0 <= i < |groups| ==> GoodGroup(groups[i])
    ensures var ts := CreatedTables(m, level, s.nextId, groups);
            var w := s.(disk := Store(s.disk, ts), nextId := s.nextId + 1 + FullCount(groups));
            && Durable(m, w) && DistinctPaths(ts)
            && (forall t :: t in ts ==> Backed(m, w.disk, t) && !Issued(t.path, s.nextId))
  {
    WritesKeepDurable(m, s, level, groups);
    CreatedGood(m, s.disk, level, s.nextId, groups);
    GroupCount(groups);
    LaterKeepsDurable(m, WithFiles(m, s, level, groups), s.nextId + 1 + FullCount(groups));
  }

  /** New tables never take the path of a listed one. */
  lemma {:induction false} NewPathsApart(m: Medium, s: Manager, ts: seq<SSTable>, a: seq<SSTable>)
    requires TablesDurable(m, s) && forall t :: t in ts ==> !Issued(t.path, s.nextId)
    requires forall o :: o in a ==> o in AllTables(s)
    ensures forall t, o :: t in ts && o in a ==> o.path != t.path
  {
    forall t, o | t in ts && o in a
      ensures o.path != t.path
    {
      assert Backed(m, s.disk, o);
    }
  }

  lemma {:induction false} PickedListed<T>(s: seq<T>, c: seq<nat>)
    requires InRange(s, c)
    ensures forall t :: t in Pick(s, c) ==> t in s
  {
  }

  lemma {:induction false} CompactionL0Durable(m: Medium, s: Manager, c: seq<nat>)
    requires ValidMedium(m) && Durable(m, s) && InRange(s.l0, c) && Distinct(c)
    requires MergeFits(m, Pick(s.l0, c), false)
    ensures Durable(m, SizeTieredCompactL0(m, s, c))
  {
    hide Durable, Backed, DistinctPaths, WrittenTables, InstallTables, RemoveTables;
    if c != [] {
      WrittenL0Durable(m, s, c);
      SortDescendingExact(c, |s.l0|);
      ReplacedL0(m, WrittenL0(m, s, c), SortDescending(c), OutputL0(m, s, c));
    }
  }

  lemma {:induction false} WrittenL0Durable(m: Medium, s: Manager, c: seq<nat>)
    requires ValidMedium(m) && Durable(m, s) && InRange(s.l0, c)
    requires MergeFits(m, Pick(s.l0, c), false)
    ensures var w, ts := WrittenL0(m, s, c), OutputL0(m, s, c);
            && Durable(m, w) && DistinctPaths(ts) && w.l0 == s.l0
            && (forall t :: t in ts ==> Backed(m, w.disk, t))
            && (forall t, o :: t in ts && o in AllTables(w) ==> o.path != t.path)
  {
    hide Durable, Backed, DistinctPaths, WrittenTables;
    PickedListed(s.l0, c);
    LevelInAll(s, L0);
    WrittenDurable(m, s, Pick(s.l0, c), L1, false);
  }

  lemma {:induction false} ReplacedL0(m: Medium, w: Manager, d: seq<nat>, ts: seq<SSTable>)
    requires Durable(m, w) && Descending(d, |w.l0|) && DistinctPaths(ts)
    requires forall t :: t in ts ==> Backed(m, w.disk, t)
    requires forall t, o :: t in ts && o in AllTables(w) ==> o.path != t.path
    ensures Durable(m, InstallTables(RemoveTables(w, L0, d), ts))
  {
    hide Durable, Backed, DistinctPaths, InstallTables, RemoveTables;
    RemovalsKeepDurable(m, w, L0, d);
    RemovedStillBacked(m, w, L0, d, ts);
    InstallsKeepDurable(m, RemoveTables(w, L0, d), ts);
  }

  /** Removing listed tables leaves the files of new tables alone. */
  lemma {:induction false} RemovedStillBacked(m: Medium, s: Manager, level: Level, idxs: seq<nat>, ts: seq<SSTable>)
    requires Descending(idxs, |LevelList(s, level)|)
    requires forall t :: t in ts ==> Backed(m, s.disk, t)
    requires forall t, o :: t in ts && o in AllTables(s) ==> o.path != t.path
    ensures var r := RemoveTables(s, level, idxs);
            && (forall t :: t in ts ==> Backed(m, r.disk, t))
            && (forall t, o :: t in ts && o in AllTables(r) ==> o.path != t.path)
    decreases |idxs|
  {
    if idxs != [] {
      RemovedOneStillBacked(m, s, level, idxs[0], ts);
      RemovedStillBacked(m, WithoutTable(s, level, idxs[0]), level, idxs[1..], ts);
    }
  }

  lemma {:induction false} RemovedOneStillBacked(m: Medium, s: Manager, level: Level, i: nat, ts: seq<SSTable>)
    requires i < |LevelList(s, level)|
    requires forall t :: t in ts ==> Backed(m, s.disk, t)
    requires forall t, o :: t in ts && o in AllTables(s) ==> o.path != t.path
    ensures var r := WithoutTable(s, level, i);
            && (forall t :: t in ts ==> Backed(m, r.disk, t))
            && (forall t, o :: t in ts && o in AllTables(r) ==> o.path != t.path)
  {
    LevelInAll(s, level);
    var x, y := Around(s, level, i);
    assert forall o :: o in x + y ==> o in AllTables(s);
  }

  lemma {:induction false} InputsListed(s: Manager, i: nat, overlaps: seq<nat>)
    requires i < |s.l1| && InRange(s.l2, overlaps)
    ensures forall t :: t in InputL1(s, i, overlaps) ==> t in AllTables(s)
  {
    PickedListed(s.l2, overlaps);
    LevelInAll(s, L1);
    LevelInAll(s, L2);
    assert s.l1[i] in s.l1;
  }

  /** The writing half of a compaction of listed tables. */
  lemma {:induction false} WrittenDurable(m: Medium, s: Manager, inputs: seq<SSTable>, level: Level, drop: bool)
    requires ValidMedium(m) && Durable(m, s)
    requires forall t :: t in inputs ==> t in AllTables(s)
    requires MergeFits(m, inputs, drop)
    ensures var s0 := s.(nextId := s.nextId + 1);
            var w, ts := WriteMerged(m, s0, inputs, level, drop), WrittenTables(m, s0, inputs, level, drop);
            && Durable(m, w) && DistinctPaths(ts)
            && (forall t :: t in ts ==> Backed(m, w.disk, t))
            && (forall t, o :: t in ts && o in AllTables(w) ==> o.path != t.path)
  {
    var s0 := s.(nextId := s.nextId + 1);
    LaterKeepsDurable(m, s, s.nextId + 1);
    WriteMergedKeepsDurable(m, s0, inputs, level, drop);
    NewPathsApart(m, s0, WrittenTables(m, s0, inputs, level, drop), AllTables(s0));
  }

  lemma {:induction false} CompactionL1Durable(m: Medium, s: Manager, i: nat, overlaps: seq<nat>)
    requires ValidMedium(m) && Durable(m, s)
    requires i < |s.l1| && InRange(s.l2, overlaps) && Ascending(overlaps)
    requires MergeFits(m, InputL1(s, i, overlaps), true)
    ensures Durable(m, CompactL1ToL2(m, s, i, overlaps))
  {
    hide Durable, Backed, DistinctPaths, WrittenTables, InstallTables, RemoveTables;
    InputsListed(s, i, overlaps);
    WrittenDurable(m, s, InputL1(s, i, overlaps), L2, true);
    ReplacedL1(m, WrittenL1(m, s, i, overlaps), i, Reverse(overlaps), OutputL1(m, s, i, overlaps));
  }

  lemma {:induction false} ReplacedL1(m: Medium, w: Manager, i: nat, d: seq<nat>, ts: seq<SSTable>)
    requires Durable(m, w) && i < |w.l1| && Descending(d, |w.l2|) && DistinctPaths(ts)
    requires forall t :: t in ts ==> Backed(m, w.disk, t)
    requires forall t, o :: t in ts && o in AllTables(w) ==> o.path != t.path
    ensures RemoveTables(w, L2, d).l1 == w.l1
    ensures Durable(m, InstallTables(WithoutTable(RemoveTables(w, L2, d), L1, i), ts))
  {
    hide Durable, Backed, DistinctPaths, InstallTables, RemoveTables;
    RemovedStillBacked(m, w, L2, d, ts);
    RemovalsKeepDurable(m, w, L2, d);
    RemovedFromL2(w, d);
    var removed := RemoveTables(w, L2, d);
    RemovedOneStillBacked(m, removed, L1, i, ts);
    RemoveKeepsDurable(m, removed, L1, i);
    InstallsKeepDurable(m, WithoutTable(removed, L1, i), ts);
  }
}
