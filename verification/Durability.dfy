/** The manager's invariant: replaying the manifest rebuilds the level lists, after every step. */
module Durability {
  import opened Seqs
  import opened Records
  import opened Decimal
  import opened Text
  import opened TableBuilder
  import opened Splitting
  import opened Manifests
  import opened ManagerState

  predicate CleanKey(k: string) {
    Free(k, '|') && Free(k, '\n')
  }

  predicate CleanKeys(rs: seq<Record>) {
    forall i :: 0 <= i < |rs| ==> CleanKey(rs[i].key)
  }

  /** The path has been handed out by a counter that now stands at `n`. */
  ghost predicate Issued(path: string, n: nat) {
    exists level: Level, id: nat :: id < n && path == TablePath(level, id)
  }

  /** The file sizes of the groups fit the manifest's 64-bit field. */
  ghost predicate GroupsFit(m: Medium, groups: seq<seq<Record>>) {
    forall i :: 0 <= i < |groups| ==> m.fileBytes(groups[i], TARGET_TABLE_SIZE) <= U64_MAX
  }

  /** The file sizes of the tables a merge writes fit. */
  ghost predicate MergeFits(m: Medium, tables: seq<SSTable>, drop: bool) {
    GroupsFit(m, Split(MergedRecords(tables, drop)))
  }

  /** A table of the engine with its file. */
  ghost predicate Backed(m: Medium, disk: map<string, StoredFile>, t: SSTable) {
    && ValidTable(m.hasher, t) && CleanKeys(RecordsOf(t)) && t.fileSize <= U64_MAX
    && t.path in disk && disk[t.path].blocks == t.blocks
    && FilterCovers(m.hasher, disk[t.path].bloom, RecordsOf(t))
  }

  ghost predicate DistinctPaths(ts: seq<SSTable>) {
    forall i, j :: 0 <= i < j < |ts| ==> ts[i].path != ts[j].path
  }

  ghost predicate AtLevel(ts: seq<SSTable>, level: Level) {
    forall t :: t in ts ==> t.level == level
  }

  /** The records start-up replays: the checkpoint's, then the log's. */
  function ManifestRecords(s: Manager): seq<ManifestRecord> {
    Load(s.checkpoint) + Load(s.log)
  }

  function Reloaded(ts: seq<SSTable>, disk: map<string, StoredFile>): (r: seq<SSTable>)
    ensures |r| == |ts|
  {
    seq(|ts|, i requires 0 <= i < |ts| =>
      if ts[i].path in disk then LoadedTable(AddRecord(ts[i]), disk[ts[i].path]) else ts[i])
  }

  /** The level lists as start-up finds them: the tables with the filters of their files. */
  function ReloadedLevels(s: Manager): Levels {
    Levels(Reloaded(s.l0, s.disk), Reloaded(s.l1, s.disk), Reloaded(s.l2, s.disk))
  }

  /** Every listed table is backed by a file of its own, at its level. */
  ghost predicate TablesDurable(m: Medium, s: Manager) {
    && AtLevel(s.l0, L0) && AtLevel(s.l1, L1) && AtLevel(s.l2, L2)
    && (forall t :: t in AllTables(s) ==> Backed(m, s.disk, t))
    && DistinctPaths(AllTables(s))
    && (forall p :: p in s.disk ==> Issued(p, s.nextId))
  }

  /** Replaying the manifest finds the level lists. */
  ghost predicate ManifestDurable(s: Manager) {
    && Closed(s.checkpoint) && Closed(s.log)
    && (forall r :: r in ManifestRecords(s) ==> Issued(r.path, s.nextId))
    && Replay(ManifestRecords(s), s.disk) == ReloadedLevels(s)
  }

  ghost predicate Durable(m: Medium, s: Manager) {
    TablesDurable(m, s) && ManifestDurable(s)
  }

  /** Equal states are equally durable; it spares callers the unfolding. */
  lemma {:induction false} SameDurable(m: Medium, s: Manager, t: Manager)
    requires Durable(m, s) && s == t
    ensures Durable(m, t)
  {
  }

  lemma {:induction false} PathInjective(a: Level, i: nat, b: Level, j: nat)
    requires TablePath(a, i) == TablePath(b, j)
    ensures a == b && i == j
  {
    var p, q := TablePath(a, i), TablePath(b, j);
    assert p[5] == q[5];
    assert p[7..|p| - 4] == Digits(i) && q[7..|q| - 4] == Digits(j);
    DigitsInjective(i, j);
  }

  lemma {:induction false} FreshPath(level: Level, id: nat, n: nat)
    requires id >= n
    ensures !Issued(TablePath(level, id), n)
  {
    if Issued(TablePath(level, id), n) {
      var b: Level, j: nat :| j < n && TablePath(level, id) == TablePath(b, j);
      PathInjective(level, id, b, j);
    }
  }

  lemma {:induction false} PathIsClean(level: Level, id: nat)
    ensures var p := TablePath(level, id);
            Free(p, '|') && Free(p, '\n') && p != "" && !IsWhitespace(p[|p| - 1])
  {
    DigitsValue(id);
    var p, d := TablePath(level, id), Digits(id);
    forall i | 0 <= i < |p|
      ensures p[i] != '|' && p[i] != '\n'
    {
      if 7 <= i < 7 + |d| {
        assert p[i] == d[i - 7] && IsDigit(d[i - 7]);
      }
    }
  }

  lemma {:induction false} DigitsFree(n: nat, c: char)
    requires !IsDigit(c)
    ensures Free(Digits(n), c)
  {
    DigitsValue(n);
  }

  /** The keys at the ends of a backed table are clean. */
  lemma {:induction false} BackedFields(m: Medium, disk: map<string, StoredFile>, t: SSTable)
    requires Backed(m, disk, t)
    ensures CleanKey(t.minKey) && CleanKey(t.maxKey) && t.fileSize <= U64_MAX
  {
  }

  /** The manifest line of a backed table is clean. */
  lemma {:induction false} BackedIsClean(m: Medium, disk: map<string, StoredFile>, t: SSTable, n: nat)
    requires Backed(m, disk, t) && Issued(t.path, n)
    ensures Clean(AddRecord(t)) && Clean(ManifestRecord.RemoveTable(t.path))
  {
    BackedFields(m, disk, t);
    var level: Level, id: nat :| id < n && t.path == TablePath(level, id);
    PathIsClean(level, id);
    hide Backed, TablePath;
    DigitsFree(t.fileSize, '|');
    DigitsFree(t.fileSize, '\n');
    FieldsFree(AddRecord(t), '|');
    FieldsFree(AddRecord(t), '\n');
    RemovalFree(t.path);
  }

  lemma {:induction false} RemovalFree(path: string)
    requires Free(path, '|') && Free(path, '\n')
    ensures AllFree(Fields(ManifestRecord.RemoveTable(path)), '|')
    ensures AllFree(Fields(ManifestRecord.RemoveTable(path)), '\n')
  {
  }

  lemma {:induction false} FieldsFree(r: ManifestRecord, c: char)
    requires r.AddTable? && (c == '|' || c == '\n')
    requires Free(r.path, c) && Free(r.minKey, c) && Free(r.maxKey, c) && Free(Digits(r.fileSize), c)
    ensures AllFree(Fields(r), c)
  {
  }

  lemma {:induction false} ReloadedAppend(ts: seq<SSTable>, t: SSTable, disk: map<string, StoredFile>)
    requires t.path in disk
    ensures Reloaded(ts + [t], disk) == Reloaded(ts, disk) + [LoadedTable(AddRecord(t), disk[t.path])]
  {
  }

  lemma {:induction false} LoggedRecord(s: Manager, r: ManifestRecord)
    requires Closed(s.log) && Clean(r)
    ensures Closed(AppendRecord(s, r).log)
    ensures ManifestRecords(AppendRecord(s, r)) == ManifestRecords(s) + [r]
  {
    LoadAppend(s.log, r);
    ConcatAssociates(Load(s.checkpoint), Load(s.log), [r]);
  }

  lemma {:induction false} ListedRecord(s: Manager, t: SSTable)
    requires Closed(s.log) && Clean(AddRecord(t))
    ensures Closed(WithTable(s, t).log)
    ensures ManifestRecords(WithTable(s, t)) == ManifestRecords(s) + [AddRecord(t)]
  {
    LoggedRecord(WithLevel(s, t.level, LevelList(s, t.level) + [t]), AddRecord(t));
  }

  /** Listing and logging a new table whose file is written. */
  lemma {:induction false} AddKeepsManifest(s: Manager, t: SSTable)
    requires ManifestDurable(s) && Clean(AddRecord(t)) && t.path in s.disk && Issued(t.path, s.nextId)
    ensures ManifestDurable(WithTable(s, t))
  {
    ListedRecord(s, t);
    ReplayAppend(ManifestRecords(s), AddRecord(t), s.disk);
    ReloadedPush(s, t);
    forall r | r in ManifestRecords(WithTable(s, t))
      ensures Issued(r.path, s.nextId)
    {
    }
  }

  lemma {:induction false} ReloadedPush(s: Manager, t: SSTable)
    requires t.path in s.disk
    ensures ReloadedLevels(WithTable(s, t)) == Push(ReloadedLevels(s), LoadedTable(AddRecord(t), s.disk[t.path]))
  {
    ReloadedAppend(LevelList(s, t.level), t, s.disk);
  }

  lemma {:induction false} AddKeepsTables(m: Medium, s: Manager, t: SSTable)
    requires TablesDurable(m, s) && Backed(m, s.disk, t)
    requires forall o :: o in AllTables(s) ==> o.path != t.path
    ensures TablesDurable(m, WithTable(s, t))
  {
    AddedTables(s, t);
  }

  lemma {:induction false} AddedTables(s: Manager, t: SSTable)
    requires DistinctPaths(AllTables(s)) && forall o :: o in AllTables(s) ==> o.path != t.path
    ensures DistinctPaths(AllTables(WithTable(s, t)))
    ensures forall o :: o in AllTables(WithTable(s, t)) <==> o in AllTables(s) || o == t
  {
    var a, b, c := s.l0, s.l1, s.l2;
    match t.level
    case L0 =>
      ConcatAssociates(a, b, c);
      ConcatAssociates(a + [t], b, c);
      InsertedTable(a, b + c, t);
    case L1 =>
      ConcatAssociates(a, b, [t]);
      InsertedTable(a + b, c, t);
    case L2 =>
      ConcatAssociates(a + b, c, [t]);
      ConcatNothing(a + b + c);
      ConcatNothing(a + b + c + [t]);
      InsertedTable(a + b + c, [], t);
  }

  lemma {:induction false} InsertedTable(x: seq<SSTable>, y: seq<SSTable>, t: SSTable)
    requires DistinctPaths(x + y) && forall o :: o in x + y ==> o.path != t.path
    ensures DistinctPaths(x + [t] + y)
    ensures forall o :: o in x + [t] + y <==> o in x + y || o == t
  {
    var old', new' := x + y, x + [t] + y;
    forall i, j | 0 <= i < j < |new'|
      ensures new'[i].path != new'[j].path
    {
      var i', j' := if i <= |x| then i else i - 1, if j <= |x| then j else j - 1;
      assert i != |x| ==> new'[i] == old'[i'] && new'[i] in old';
      assert j != |x| ==> new'[j] == old'[j'] && new'[j] in old';
    }
  }

  /** A new table is listed, logged and, when the log is long, followed by a checkpoint. */
  lemma {:induction false} InstallKeepsDurable(m: Medium, s: Manager, t: SSTable)
    requires Durable(m, s) && Backed(m, s.disk, t)
    requires forall o :: o in AllTables(s) ==> o.path != t.path
    ensures Durable(m, WithTable(s, t)) && Durable(m, InstallTable(s, t))
  {
    BackedIsClean(m, s.disk, t, s.nextId);
    AddKeepsManifest(s, t);
    AddKeepsTables(m, s, t);
    CheckpointKeepsDurable(m, WithTable(s, t));
  }

  lemma {:induction false} AddRecordsAppend(ts: seq<SSTable>, t: SSTable)
    ensures AddRecords(ts + [t]) == AddRecords(ts) + [AddRecord(t)]
  {
  }

  lemma {:induction false} AddRecordsConcat(a: seq<SSTable>, b: seq<SSTable>)
    ensures AddRecords(a + b) == AddRecords(a) + AddRecords(b)
  {
  }

  function Extend(d: Levels, level: Level, ts: seq<SSTable>): Levels {
    match level
    case L0 => d.(l0 := d.l0 + ts)
    case L1 => d.(l1 := d.l1 + ts)
    case L2 => d.(l2 := d.l2 + ts)
  }

  /** Replaying the ADD records of one level's tables appends those tables to that level. */
  lemma {:induction false} ReplayLevel(rs: seq<ManifestRecord>, ts: seq<SSTable>, level: Level, disk: map<string, StoredFile>)
    requires AtLevel(ts, level) && forall t :: t in ts ==> t.path in disk
    ensures Replay(rs + AddRecords(ts), disk) == Extend(Replay(rs, disk), level, Reloaded(ts, disk))
  {
    if ts == [] {
      ConcatNothing(rs);
      assert AddRecords(ts) == [] && Reloaded(ts, disk) == [];
      ExtendNothing(Replay(rs, disk), level);
    } else {
      var n := |ts| - 1;
      InitLast(ts);
      ReplayLevel(rs, ts[..n], level, disk);
      AddRecordsAppend(ts[..n], ts[n]);
      ReloadedAppend(ts[..n], ts[n], disk);
      ConcatAssociates(rs, AddRecords(ts[..n]), [AddRecord(ts[n])]);
      ReplayAppend(rs + AddRecords(ts[..n]), AddRecord(ts[n]), disk);
      ExtendPush(Replay(rs, disk), level, Reloaded(ts[..n], disk), LoadedTable(AddRecord(ts[n]), disk[ts[n].path]));
    }
  }

  lemma {:induction false} ExtendNothing(d: Levels, level: Level)
    ensures Extend(d, level, []) == d
  {
    ConcatNothing(d.l0);
    ConcatNothing(d.l1);
    ConcatNothing(d.l2);
  }

  lemma {:induction false} ExtendPush(d: Levels, level: Level, ts: seq<SSTable>, t: SSTable)
    requires t.level == level
    ensures Push(Extend(d, level, ts), t) == Extend(d, level, ts + [t])
  {
    ConcatAssociates(d.l0, ts, [t]);
    ConcatAssociates(d.l1, ts, [t]);
    ConcatAssociates(d.l2, ts, [t]);
  }

  /** The checkpoint alone rebuilds the level lists. */
  lemma {:induction false} CheckpointReplay(s: Manager)
    requires AtLevel(s.l0, L0) && AtLevel(s.l1, L1) && AtLevel(s.l2, L2)
    requires forall t :: t in AllTables(s) ==> t.path in s.disk
    ensures Replay(AddRecords(AllTables(s)), s.disk) == ReloadedLevels(s)
  {
    var r0, r1 := AddRecords(s.l0), AddRecords(s.l0 + s.l1);
    ReplayLevel([], s.l0, L0, s.disk);
    assert [] + r0 == r0;
    ReplayLevel(r0, s.l1, L1, s.disk);
    AddRecordsConcat(s.l0, s.l1);
    ReplayLevel(r1, s.l2, L2, s.disk);
    AddRecordsConcat(s.l0 + s.l1, s.l2);
    NothingBefore(Reloaded(s.l0, s.disk));
    NothingBefore(Reloaded(s.l1, s.disk));
    NothingBefore(Reloaded(s.l2, s.disk));
  }

  lemma {:induction false} NothingBefore<T>(s: seq<T>)
    ensures [] + s == s
  {
  }

  lemma {:induction false} CheckpointRecords(m: Medium, s: Manager)
    requires TablesDurable(m, s)
    ensures forall r :: r in AddRecords(AllTables(s)) ==> Clean(r) && Issued(r.path, s.nextId)
  {
    hide Clean, Backed;
    var rs := AddRecords(AllTables(s));
    forall r | r in rs
      ensures Clean(r) && Issued(r.path, s.nextId)
    {
      var i :| 0 <= i < |rs| && rs[i] == r;
      var t := AllTables(s)[i];
      assert t in AllTables(s);
      ListedRecordClean(m, s, t);
    }
  }

  lemma {:induction false} ListedRecordClean(m: Medium, s: Manager, t: SSTable)
    requires TablesDurable(m, s) && t in AllTables(s)
    ensures Clean(AddRecord(t)) && Issued(t.path, s.nextId)
  {
    BackedIsClean(m, s.disk, t, s.nextId);
  }

  lemma {:induction false} CheckpointKeepsTables(m: Medium, s: Manager)
    requires TablesDurable(m, s)
    ensures TablesDurable(m, Checkpoint(s)) && AllTables(Checkpoint(s)) == AllTables(s)
    ensures ReloadedLevels(Checkpoint(s)) == ReloadedLevels(s)
    ensures forall t :: t in AllTables(s) ==> t.path in s.disk
  {
  }

  lemma {:induction false} CheckpointKeepsManifest(s: Manager)
    requires AtLevel(s.l0, L0) && AtLevel(s.l1, L1) && AtLevel(s.l2, L2)
    requires forall t :: t in AllTables(s) ==> t.path in s.disk
    requires forall r :: r in AddRecords(AllTables(s)) ==> Clean(r) && Issued(r.path, s.nextId)
    ensures ManifestDurable(Checkpoint(s))
  {
    hide Clean, Issued, AllTables, AtLevel;
    var rs := AddRecords(AllTables(s));
    CheckpointReplay(s);
    LoadText(rs);
    LoadEmpty();
    ConcatNothing(rs);
  }

  lemma {:induction false} CheckpointKeepsDurable(m: Medium, s: Manager)
    requires TablesDurable(m, s)
    ensures Durable(m, Checkpoint(s))
  {
    hide Clean, Backed, Issued, AddRecords, Checkpoint;
    CheckpointKeepsTables(m, s);
    CheckpointRecords(m, s);
    CheckpointKeepsManifest(s);
  }
}
