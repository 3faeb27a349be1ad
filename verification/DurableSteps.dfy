/** Flushes, compactions and checkpoints keep the manager's invariant. */
module DurableSteps {
  import opened Seqs
  import opened TableBuilder
  import opened Manifests
  import opened ManagerState
  import opened Durability

  lemma {:induction false} DropPathConcat(a: seq<SSTable>, b: seq<SSTable>, path: string)
    ensures DropPath(a + b, path) == DropPath(a, path) + DropPath(b, path)
    decreases |b|
  {
    if b == [] {
      ConcatNothing(a);
      ConcatNothing(DropPath(a, path));
    } else {
      var n := |b| - 1;
      InitLast(b);
      DropPathConcat(a, b[..n], path);
      ConcatAssociates(a, b[..n], [b[n]]);
      DropPathAppend(a + b[..n], b[n], path);
      DropPathAppend(b[..n], b[n], path);
      ConcatAssociates(DropPath(a, path), DropPath(b[..n], path), [b[n]]);
    }
  }

  lemma {:induction false} ReloadedConcat(a: seq<SSTable>, b: seq<SSTable>, disk: map<string, StoredFile>)
    ensures Reloaded(a + b, disk) == Reloaded(a, disk) + Reloaded(b, disk)
  {
  }

  /** A deleted file that belongs to none of these tables. */
  lemma {:induction false} ReloadedWithout(ts: seq<SSTable>, disk: map<string, StoredFile>, path: string)
    requires forall t :: t in ts ==> t.path != path && t.path in disk
    ensures DropPath(Reloaded(ts, disk), path) == Reloaded(ts, disk)
    ensures Reloaded(ts, disk - {path}) == Reloaded(ts, disk)
  {
    if ts != [] {
      var n := |ts| - 1;
      InitLast(ts);
      ReloadedWithout(ts[..n], disk, path);
      ReloadedAppend(ts[..n], ts[n], disk);
      ReloadedAppend(ts[..n], ts[n], disk - {path});
      DropPathAppend(Reloaded(ts[..n], disk), LoadedTable(AddRecord(ts[n]), disk[ts[n].path]), path);
    } else {
      assert Reloaded(ts, disk) == [] && Reloaded(ts, disk - {path}) == [];
    }
  }

  /** A deleted file that belongs to the i-th of these tables. */
  lemma {:induction false} ReloadedRemoved(ts: seq<SSTable>, disk: map<string, StoredFile>, i: nat)
    requires i < |ts| && forall t :: t in ts ==> t.path in disk
    requires forall j :: 0 <= j < |ts| && j != i ==> ts[j].path != ts[i].path
    ensures DropPath(Reloaded(ts, disk), ts[i].path) == Reloaded(RemoveAt(ts, i), disk - {ts[i].path})
  {
    var a, t, b := ts[..i], ts[i], ts[i + 1..];
    var p := t.path;
    ReloadedWithout(a, disk, p);
    ReloadedWithout(b, disk, p);
    ReloadedConcat(a, b, disk - {p});
    SplitAround(ts, i);
    ReloadedConcat(a + [t], b, disk);
    ReloadedAppend(a, t, disk);
    DropPathConcat(Reloaded(a, disk) + [LoadedTable(AddRecord(t), disk[p])], Reloaded(b, disk), p);
    DropPathAppend(Reloaded(a, disk), LoadedTable(AddRecord(t), disk[p]), p);
  }

  lemma {:induction false} SplitAround<T>(s: seq<T>, i: nat)
    requires i < |s|
    ensures s == s[..i] + [s[i]] + s[i + 1..]
  {
  }

  /** The tables before and behind a listed one, across all levels. */
  lemma {:induction false} Around(s: Manager, level: Level, i: nat) returns (x: seq<SSTable>, y: seq<SSTable>)
    requires i < |LevelList(s, level)|
    ensures AllTables(s) == x + [LevelList(s, level)[i]] + y
    ensures AllTables(WithoutTable(s, level, i)) == x + y
    ensures forall other: Level, t :: t in LevelList(s, other) && (other != level) ==> t in x + y
    ensures forall j :: 0 <= j < |LevelList(s, level)| && j != i ==> LevelList(s, level)[j] in x + y
  {
    var ts := LevelList(s, level);
    var a, b := ts[..i], ts[i + 1..];
    SplitAround(ts, i);
    match level
    case L0 => x, y := a, b + s.l1 + s.l2;
    case L1 => x, y := s.l0 + a, b + s.l2;
    case L2 => x, y := s.l0 + s.l1 + a, b;
    AroundParts(s, level, i, x, y);
    forall j | 0 <= j < |ts| && j != i
      ensures ts[j] in x + y
    {
      assert if j < i then ts[j] in a else ts[j] in b;
    }
  }

  lemma {:induction false} AroundParts(s: Manager, level: Level, i: nat, x: seq<SSTable>, y: seq<SSTable>)
    requires i < |LevelList(s, level)|
    requires var ts := LevelList(s, level);
             match level
             case L0 => x == ts[..i] && y == ts[i + 1..] + s.l1 + s.l2
             case L1 => x == s.l0 + ts[..i] && y == ts[i + 1..] + s.l2
             case L2 => x == s.l0 + s.l1 + ts[..i] && y == ts[i + 1..]
    ensures AllTables(s) == x + [LevelList(s, level)[i]] + y
    ensures AllTables(WithoutTable(s, level, i)) == x + y
  {
    var ts := LevelList(s, level);
    var a, t, b := ts[..i], [ts[i]], ts[i + 1..];
    SplitAround(ts, i);
    match level
    case L0 =>
      RegroupFirst(a, t, b, s.l1, s.l2);
      RegroupFirst(a, [], b, s.l1, s.l2);
      ConcatNothing(a);
    case L1 =>
      RegroupMiddle(s.l0, a, t, b, s.l2);
      RegroupMiddle(s.l0, a, [], b, s.l2);
      ConcatNothing(a);
      ConcatNothing(s.l0 + a);
    case L2 =>
      RegroupMiddle(s.l0 + s.l1, a, t, b, []);
      RegroupMiddle(s.l0 + s.l1, a, [], b, []);
      ConcatNothing(a);
      ConcatNothing(b);
      ConcatNothing(s.l0 + s.l1 + a);
      ConcatNothing(s.l0 + s.l1 + (a + t + b));
      ConcatNothing(s.l0 + s.l1 + (a + b));
  }

  lemma {:induction false} TakenOut(x: seq<SSTable>, y: seq<SSTable>, t: SSTable)
    requires DistinctPaths(x + [t] + y)
    ensures DistinctPaths(x + y)
    ensures forall o :: o in x + y ==> o in x + [t] + y && o.path != t.path
  {
    var old', new' := x + [t] + y, x + y;
    assert old'[|x|] == t;
    forall i | 0 <= i < |new'|
      ensures new'[i] in old' && new'[i].path != t.path
    {
      assert new'[i] == old'[if i < |x| then i else i + 1];
    }
    forall i, j | 0 <= i < j < |new'|
      ensures new'[i].path != new'[j].path
    {
      assert new'[i] == old'[if i < |x| then i else i + 1] && new'[j] == old'[if j < |x| then j else j + 1];
    }
  }

  lemma {:induction false} RemoveKeepsTables(m: Medium, s: Manager, level: Level, i: nat)
    requires TablesDurable(m, s) && i < |LevelList(s, level)|
    ensures TablesDurable(m, WithoutTable(s, level, i))
    ensures forall o :: o in AllTables(WithoutTable(s, level, i)) ==> o in AllTables(s)
  {
    var t := LevelList(s, level)[i];
    var x, y := Around(s, level, i);
    TakenOut(x, y, t);
    RemoveKeepsLevels(s, level, i);
    forall o | o in x + y
      ensures Backed(m, s.disk - {t.path}, o)
    {
      assert Backed(m, s.disk, o);
    }
  }

  lemma {:induction false} RemoveKeepsLevels(s: Manager, level: Level, i: nat)
    requires AtLevel(s.l0, L0) && AtLevel(s.l1, L1) && AtLevel(s.l2, L2) && i < |LevelList(s, level)|
    ensures var r := WithoutTable(s, level, i); AtLevel(r.l0, L0) && AtLevel(r.l1, L1) && AtLevel(r.l2, L2)
  {
    RemovedAtLevel(LevelList(s, level), i);
  }

  lemma {:induction false} RemovedAtLevel(ts: seq<SSTable>, i: nat)
    requires i < |ts|
    ensures forall t :: t in RemoveAt(ts, i) ==> t in ts
  {
  }

  lemma {:induction false} LevelInAll(s: Manager, level: Level)
    ensures forall o :: o in LevelList(s, level) ==> o in AllTables(s)
  {
  }

  lemma {:induction false} ReloadedSame(m: Medium, s: Manager, level: Level, i: nat)
    requires TablesDurable(m, s) && i < |LevelList(s, level)|
    ensures var ts, p := LevelList(s, level), LevelList(s, level)[i].path;
            DropPath(Reloaded(ts, s.disk), p) == Reloaded(RemoveAt(ts, i), s.disk - {p})
  {
    var x, y := Around(s, level, i);
    TakenOut(x, y, LevelList(s, level)[i]);
    LevelInAll(s, level);
    ReloadedRemoved(LevelList(s, level), s.disk, i);
  }

  lemma {:induction false} ReloadedOther(m: Medium, s: Manager, level: Level, i: nat, other: Level)
    requires TablesDurable(m, s) && i < |LevelList(s, level)| && other != level
    ensures var ts, p := LevelList(s, other), LevelList(s, level)[i].path;
            DropPath(Reloaded(ts, s.disk), p) == Reloaded(ts, s.disk - {p})
  {
    var x, y := Around(s, level, i);
    TakenOut(x, y, LevelList(s, level)[i]);
    LevelInAll(s, other);
    ReloadedWithout(LevelList(s, other), s.disk, LevelList(s, level)[i].path);
  }

  /** What is rebuilt without the file is what is listed without the table. */
  lemma {:induction false} ReloadedLost(m: Medium, s: Manager, level: Level, i: nat)
    requires TablesDurable(m, s) && i < |LevelList(s, level)|
    ensures DropPaths(ReloadedLevels(s), LevelList(s, level)[i].path) == ReloadedLevels(WithoutTable(s, level, i))
  {
    ReloadedSame(m, s, level, i);
    if level != L0 {
      ReloadedOther(m, s, level, i, L0);
    }
    if level != L1 {
      ReloadedOther(m, s, level, i, L1);
    }
    if level != L2 {
      ReloadedOther(m, s, level, i, L2);
    }
  }

  lemma {:induction false} RemoveKeepsDurable(m: Medium, s: Manager, level: Level, i: nat)
    requires Durable(m, s) && i < |LevelList(s, level)|
    ensures Durable(m, WithoutTable(s, level, i))
    ensures forall o :: o in AllTables(WithoutTable(s, level, i)) ==> o in AllTables(s)
  {
    var t := LevelList(s, level)[i];
    RemoveKeepsTables(m, s, level, i);
    assert t in AllTables(s);
    BackedIsClean(m, s.disk, t, s.nextId);
    var record := ManifestRecord.RemoveTable(t.path);
    LoggedRecord(WithLevel(s, level, RemoveAt(LevelList(s, level), i)), record);
    ReplayAppend(ManifestRecords(s), record, s.disk - {t.path});
    ReplayLostFile(ManifestRecords(s), s.disk, t.path);
    ReloadedLost(m, s, level, i);
    RecordsAfterRemoval(s, level, i);
  }

  lemma {:induction false} RecordsAfterRemoval(s: Manager, level: Level, i: nat)
    requires i < |LevelList(s, level)|
    ensures var r := WithoutTable(s, level, i);
            && r.checkpoint == s.checkpoint && r.nextId == s.nextId
            && r.log == s.log + Serialize(ManifestRecord.RemoveTable(LevelList(s, level)[i].path))
            && r.disk == s.disk - {LevelList(s, level)[i].path}
  {
  }

  lemma {:induction false} RemovalsKeepDurable(m: Medium, s: Manager, level: Level, idxs: seq<nat>)
    requires Durable(m, s) && Descending(idxs, |LevelList(s, level)|)
    ensures Durable(m, RemoveTables(s, level, idxs))
    ensures forall o :: o in AllTables(RemoveTables(s, level, idxs)) ==> o in AllTables(s)
    decreases |idxs|
  {
    if idxs != [] {
      RemoveKeepsDurable(m, s, level, idxs[0]);
      RemovalsKeepDurable(m, WithoutTable(s, level, idxs[0]), level, idxs[1..]);
    }
  }

  lemma {:induction false} InstalledOne(s: Manager, t: SSTable)
    ensures var r := InstallTable(s, t);
            AllTables(r) == AllTables(WithTable(s, t)) && r.disk == s.disk && r.nextId == s.nextId
  {
  }

  lemma {:induction false} InstallsKeepDurable(m: Medium, s: Manager, ts: seq<SSTable>)
    requires Durable(m, s) && DistinctPaths(ts)
    requires forall t :: t in ts ==> Backed(m, s.disk, t)
    requires forall t, o :: t in ts && o in AllTables(s) ==> o.path != t.path
    ensures Durable(m, InstallTables(s, ts))
    ensures forall o :: o in AllTables(InstallTables(s, ts)) ==> o in AllTables(s) || o in ts
    ensures InstallTables(s, ts).disk == s.disk && InstallTables(s, ts).nextId == s.nextId
  {
    if ts != [] {
      var n := |ts| - 1;
      var before := InstallTables(s, ts[..n]);
      InstallsKeepDurable(m, s, ts[..n]);
      LastIsNew(ts, AllTables(s), AllTables(before));
      InstallKeepsDurable(m, before, ts[n]);
      InstalledOne(before, ts[n]);
      AddedTables(before, ts[n]);
      assert forall o :: o in ts[..n] ==> o in ts;
    }
  }

  lemma {:induction false} LastIsNew(ts: seq<SSTable>, a: seq<SSTable>, b: seq<SSTable>)
    requires ts != [] && DistinctPaths(ts)
    requires forall t, o :: t in ts && o in a ==> o.path != t.path
    requires forall o :: o in b ==> o in a || o in ts[..|ts| - 1]
    ensures ts[|ts| - 1] in ts && forall o :: o in b ==> o.path != ts[|ts| - 1].path
  {
    assert ts[|ts| - 1] in ts;
  }

  lemma {:induction false} IssuedLater(path: string, n: nat, n': nat)
    requires Issued(path, n) && n <= n'
    ensures Issued(path, n')
  {
    var level: Level, id: nat :| id < n && path == TablePath(level, id);
  }

  /** Spending ids changes nothing else. */
  lemma {:induction false} LaterKeepsDurable(m: Medium, s: Manager, n: nat)
    requires Durable(m, s) && s.nextId <= n
    ensures Durable(m, s.(nextId := n))
  {
    forall p | p in s.disk
      ensures Issued(p, n)
    {
      IssuedLater(p, s.nextId, n);
    }
    forall r | r in ManifestRecords(s)
      ensures Issued(r.path, n)
    {
      IssuedLater(r.path, s.nextId, n);
    }
  }

  lemma {:induction false} ReloadedWithNew(ts: seq<SSTable>, disk: map<string, StoredFile>, path: string, f: StoredFile)
    requires forall t :: t in ts ==> t.path != path
    ensures Reloaded(ts, disk[path := f]) == Reloaded(ts, disk)
  {
  }

  /** A file under a fresh path disturbs nothing. */
  lemma {:induction false} WriteKeepsDurable(m: Medium, s: Manager, level: Level, f: StoredFile)
    requires Durable(m, s)
    ensures Durable(m, s.(disk := s.disk[TablePath(level, s.nextId) := f], nextId := s.nextId + 1))
    ensures TablePath(level, s.nextId) !in s.disk
  {
    var p := TablePath(level, s.nextId);
    FreshPath(level, s.nextId, s.nextId);
    assert Issued(p, s.nextId + 1);
    LaterIssued(s, s.(disk := s.disk[p := f]), p);
    FreshManifest(m, s, p, f);
  }

  lemma {:induction false} FreshManifest(m: Medium, s: Manager, p: string, f: StoredFile)
    requires Durable(m, s) && !Issued(p, s.nextId)
    ensures Replay(ManifestRecords(s), s.disk[p := f]) == ReloadedLevels(s.(disk := s.disk[p := f]))
  {
    assert NeverNamed(ManifestRecords(s), p);
    ReplayNewFile(ManifestRecords(s), s.disk, p, f);
    PathUnused(m, s, p, L0);
    PathUnused(m, s, p, L1);
    PathUnused(m, s, p, L2);
    ReloadedWithNew(s.l0, s.disk, p, f);
    ReloadedWithNew(s.l1, s.disk, p, f);
    ReloadedWithNew(s.l2, s.disk, p, f);
  }

  lemma {:induction false} PathUnused(m: Medium, s: Manager, p: string, level: Level)
    requires TablesDurable(m, s) && !Issued(p, s.nextId)
    ensures forall o :: o in LevelList(s, level) ==> o.path != p
  {
    LevelInAll(s, level);
    forall o | o in LevelList(s, level)
      ensures o.path != p
    {
      assert Backed(m, s.disk, o);
    }
  }

  lemma {:induction false} LaterIssued(s: Manager, w: Manager, p: string)
    requires w.disk.Keys == s.disk.Keys + {p} && Issued(p, s.nextId + 1)
    requires forall q :: q in s.disk ==> Issued(q, s.nextId)
    requires forall r :: r in ManifestRecords(s) ==> Issued(r.path, s.nextId)
    ensures forall q :: q in w.disk ==> Issued(q, s.nextId + 1)
    ensures forall r :: r in ManifestRecords(s) ==> Issued(r.path, s.nextId + 1)
  {
    forall q | q in s.disk
      ensures Issued(q, s.nextId + 1)
    {
      IssuedLater(q, s.nextId, s.nextId + 1);
    }
    forall r | r in ManifestRecords(s)
      ensures Issued(r.path, s.nextId + 1)
    {
      IssuedLater(r.path, s.nextId, s.nextId + 1);
    }
  }
}
