/** The levels a restart finds when the manifest was cut off while a line or a checkpoint was written. */
module TornManifests {
  import opened Seqs
  import opened SortedMap
  import opened Text
  import opened TableBuilder
  import opened Manifests
  import opened ManagerState
  import opened ManifestTears
  import opened Durability
  import opened Recovery
  import opened CrashAnswers

  /** The first `n` characters of a line are in the log. */
  function TornLog(s: Manager, r: ManifestRecord, n: nat): Manager
    requires n <= |Serialize(r)|
  {
    s.(log := s.log + Serialize(r)[..n])
  }

  lemma {:induction false} TornRecords(s: Manager, r: ManifestRecord, n: nat) returns (x: Option<ManifestRecord>)
    requires Closed(s.log) && Clean(r) && n <= |Serialize(r)|
    ensures ManifestRecords(TornLog(s, r, n)) == ManifestRecords(s) + Listed(x)
    ensures x.Some? ==> TakenFor(x.value, r)
  {
    x := TornAppend(s.log, r, n);
    hide Load;
    ConcatAssociates(Load(s.checkpoint), Load(s.log), Listed(x));
  }

  /** The levels that the replay of some records finds. */
  predicate Finds(s: Manager, rs: seq<ManifestRecord>) {
    var d, r := Replay(rs, s.disk), Reopened(s);
    r.l0 == d.l0 && r.l1 == d.l1 && r.l2 == d.l2 && r.disk == s.disk
  }

  lemma {:induction false} ReopenedFinds(s: Manager)
    ensures Finds(s, ManifestRecords(s))
  {
    hide ManifestRecords, Replay;
  }

  lemma {:induction false} FindAlike(s: Manager, t: Manager, a: seq<ManifestRecord>, b: seq<ManifestRecord>)
    requires Finds(s, a) && Finds(t, b) && s.disk == t.disk
    requires var x, y := Replay(a, s.disk), Replay(b, s.disk); Alike(x.l0, y.l0) && Alike(x.l1, y.l1) && Alike(x.l2, y.l2)
    ensures AlikeManagers(Reopened(s), Reopened(t))
  {
    hide Replay, Reopened, Alike;
  }

  /** A removal's line cut off, or whole while its file is still there, changes nothing that a restart finds. */
  lemma {:induction false} TornRemovalFinds(m: Medium, s: Manager, path: string, n: nat)
    requires Durable(m, s) && Clean(ManifestRecord.RemoveTable(path)) && n <= |Serialize(ManifestRecord.RemoveTable(path))|
    ensures AlikeManagers(Reopened(TornLog(s, ManifestRecord.RemoveTable(path), n)), Reopened(s))
  {
    var r := ManifestRecord.RemoveTable(path);
    assert Closed(s.log);
    hide Durable, Clean, Load, Serialize, Alike, Reopened, Replay, ManifestRecords, Closed;
    var x := TornRecords(s, r, n);
    ReopenedFinds(TornLog(s, r, n));
    ReopenedFinds(s);
    RemovalsPassed(ManifestRecords(s), x, s.disk);
    SameLevels(TornLog(s, r, n), s, ManifestRecords(s) + Listed(x), ManifestRecords(s));
  }

  lemma {:induction false} RemovalsPassed(rs: seq<ManifestRecord>, x: Option<ManifestRecord>, disk: map<string, StoredFile>)
    requires x.Some? ==> x.value.RemoveTable?
    ensures Replay(rs + Listed(x), disk) == Replay(rs, disk)
  {
    if x.Some? {
      ReplayAppend(rs, x.value, disk);
    } else {
      ConcatNothing(rs);
    }
  }

  lemma {:induction false} SameLevels(s: Manager, t: Manager, a: seq<ManifestRecord>, b: seq<ManifestRecord>)
    requires Finds(s, a) && Finds(t, b) && s.disk == t.disk && Replay(a, s.disk) == Replay(b, s.disk)
    ensures AlikeManagers(Reopened(s), Reopened(t))
  {
    hide Replay, Reopened;
  }

  /** An addition's line cut off lists the table, but perhaps for its size, or does not. */
  lemma {:induction false} TornListingFinds(m: Medium, s: Manager, t: SSTable, n: nat)
    requires Durable(m, s) && Clean(AddRecord(t)) && t.path in s.disk && n <= |Serialize(AddRecord(t))|
    ensures var found := Reopened(TornLog(s, AddRecord(t), n));
            AlikeManagers(found, Reopened(s)) || AlikeManagers(found, Reopened(WithTable(s, t)))
  {
    var r := AddRecord(t);
    assert Closed(s.log);
    hide Durable, Clean, Load, Serialize, Alike, Reopened, Replay, ManifestRecords, Closed;
    var x := TornRecords(s, r, n);
    ReopenedFinds(TornLog(s, r, n));
    ReopenedFinds(s);
    ReopenedFinds(WithTable(s, t));
    ListedRecord(s, t);
    if x.Some? {
      ReplayedAlike(ManifestRecords(s), x.value, r, s.disk);
      FindAlike(TornLog(s, r, n), WithTable(s, t), ManifestRecords(s) + [x.value], ManifestRecords(s) + [r]);
    } else {
      ConcatNothing(ManifestRecords(s));
      SameLevels(TornLog(s, r, n), s, ManifestRecords(s), ManifestRecords(s));
    }
  }

  lemma {:induction false} ReplayedAlike(rs: seq<ManifestRecord>, x: ManifestRecord, r: ManifestRecord, disk: map<string, StoredFile>)
    requires r.AddTable? && ButForSize(x, r) && r.path in disk
    ensures var a, b := Replay(rs + [x], disk), Replay(rs + [r], disk); Alike(a.l0, b.l0) && Alike(a.l1, b.l1) && Alike(a.l2, b.l2)
  {
    ReplayAppend(rs, x, disk);
    ReplayAppend(rs, r, disk);
    hide Replay;
    PushedAlike(Replay(rs, disk), x, r, disk[r.path]);
  }

  lemma {:induction false} PushedAlike(d: Levels, x: ManifestRecord, r: ManifestRecord, f: StoredFile)
    requires r.AddTable? && ButForSize(x, r)
    ensures x.AddTable? && var a, b := Push(d, LoadedTable(x, f)), Push(d, LoadedTable(r, f));
            Alike(a.l0, b.l0) && Alike(a.l1, b.l1) && Alike(a.l2, b.l2)
  {
  }

  /** The new checkpoint is written up to its `n`-th character, over the old one; the log is not yet cleared. */
  function TornCheckpoint(s: Manager, n: nat): Manager
    requires n <= |FileText(AddRecords(AllTables(s)))|
  {
    s.(checkpoint := FileText(AddRecords(AllTables(s)))[..n])
  }

  /** How many of its lines read back. */
  function LinesRead(s: Manager, n: nat): nat
    requires n <= |FileText(AddRecords(AllTables(s)))|
  {
    |Load(FileText(AddRecords(AllTables(s)))[..n])|
  }

  ghost predicate LikeRecords(a: seq<ManifestRecord>, b: seq<ManifestRecord>) {
    |a| == |b| && forall i :: 0 <= i < |a| ==> b[i].AddTable? && ButForSize(a[i], b[i])
  }

  ghost predicate AllAdditions(rs: seq<ManifestRecord>) {
    forall i :: 0 <= i < |rs| ==> rs[i].AddTable?
  }

  /** A file of additions cut anywhere gives the first of them, the last one perhaps with another size. */
  lemma {:induction false} TornText(rs: seq<ManifestRecord>, n: nat)
    requires AllClean(rs) && AllAdditions(rs) && n <= |FileText(rs)|
    ensures var x := Load(FileText(rs)[..n]); |x| <= |rs| && LikeRecords(x, rs[..|x|])
  {
    if rs == [] {
      LoadEmpty();
    } else {
      var k := |rs| - 1;
      var before, r := FileText(rs[..k]), rs[k];
      assert rs[k] in rs;
      PrefixOfConcat(before, Serialize(r), n);
      hide Clean, Load, Serialize, FileText, ButForSize;
      if n <= |before| {
        TornText(rs[..k], n);
        ShorterText(rs, k, Load(before[..n]));
      } else {
        LoadText(rs[..k]);
        var y := TornAppend(before, r, n - |before|);
        OneMoreAlike(rs, k, y);
      }
    }
  }

  lemma {:induction false} ShorterText(rs: seq<ManifestRecord>, k: nat, x: seq<ManifestRecord>)
    requires k <= |rs| && |x| <= k && LikeRecords(x, rs[..k][..|x|])
    ensures LikeRecords(x, rs[..|x|])
  {
    assert rs[..k][..|x|] == rs[..|x|];
  }

  lemma {:induction false} OneMoreAlike(rs: seq<ManifestRecord>, k: nat, y: Option<ManifestRecord>)
    requires k + 1 == |rs| && AllAdditions(rs) && (y.Some? ==> TakenFor(y.value, rs[k]))
    ensures var x := rs[..k] + Listed(y); |x| <= |rs| && LikeRecords(x, rs[..|x|])
  {
  }

  /** Records that differ in sizes only rebuild tables that do. */
  lemma {:induction false} ReplayLike(a: seq<ManifestRecord>, b: seq<ManifestRecord>, disk: map<string, StoredFile>)
    requires LikeRecords(a, b)
    ensures var x, y := Replay(a, disk), Replay(b, disk); Alike(x.l0, y.l0) && Alike(x.l1, y.l1) && Alike(x.l2, y.l2)
  {
    if a != [] {
      var n := |a| - 1;
      ReplayLike(a[..n], b[..n], disk);
      hide Replay;
      InitLast(a);
      InitLast(b);
      ReplayAppend(a[..n], a[n], disk);
      ReplayAppend(b[..n], b[n], disk);
      if b[n].path in disk {
        PushAlike(Replay(a[..n], disk), Replay(b[..n], disk), LoadedTable(a[n], disk[b[n].path]), LoadedTable(b[n], disk[b[n].path]));
      }
    }
  }

  lemma {:induction false} PushAlike(x: Levels, y: Levels, t: SSTable, u: SSTable)
    requires Alike(x.l0, y.l0) && Alike(x.l1, y.l1) && Alike(x.l2, y.l2) && t == u.(fileSize := t.fileSize)
    ensures var a, b := Push(x, t), Push(y, u); Alike(a.l0, b.l0) && Alike(a.l1, b.l1) && Alike(a.l2, b.l2)
  {
  }

  function JoinLevels(x: Levels, y: Levels): Levels {
    Levels(x.l0 + y.l0, x.l1 + y.l1, x.l2 + y.l2)
  }

  /** Replaying two files of records appends what the second rebuilds to what the first does. */
  lemma {:induction false} ReplayConcat(a: seq<ManifestRecord>, b: seq<ManifestRecord>, disk: map<string, StoredFile>)
    ensures Replay(a + b, disk) == JoinLevels(Replay(a, disk), Replay(b, disk))
  {
    if b == [] {
      ConcatNothing(a);
      AppendNothing(Replay(a, disk));
    } else {
      var n := |b| - 1;
      ReplayConcat(a, b[..n], disk);
      InitLast(b);
      ConcatAssociates(a, b[..n], [b[n]]);
      ReplayAppend(a + b[..n], b[n], disk);
      ReplayAppend(b[..n], b[n], disk);
      hide Replay;
      if b[n].AddTable? && b[n].path in disk {
        PushAppended(Replay(a, disk), Replay(b[..n], disk), LoadedTable(b[n], disk[b[n].path]));
      }
    }
  }

  lemma {:induction false} AppendNothing(d: Levels)
    ensures JoinLevels(d, Levels([], [], [])) == d
  {
    ConcatNothing(d.l0);
    ConcatNothing(d.l1);
    ConcatNothing(d.l2);
  }

  lemma {:induction false} PushAppended(x: Levels, y: Levels, t: SSTable)
    ensures Push(JoinLevels(x, y), t) == JoinLevels(x, Push(y, t))
  {
    ConcatAssociates(x.l0, y.l0, [t]);
    ConcatAssociates(x.l1, y.l1, [t]);
    ConcatAssociates(x.l2, y.l2, [t]);
  }
}
