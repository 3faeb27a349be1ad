/** What a crash can leave of one manifest write: a line cut off, or a checkpoint. */
module CrashSteps {
  import opened Seqs
  import opened Records
  import opened TableBuilder
  import opened Selection
  import opened Manifests
  import opened ManagerState
  import opened Durability
  import opened DurableSteps
  import opened Recovery
  import opened Strays
  import opened CrashAnswers
  import opened TornManifests
  import opened TornCheckpoints

  /** Where the crash falls: between two writes, in a removal's line or between that and the deletion of the file, in
      an addition's line, or in the checkpoint that follows the addition. */
  datatype Tear =
    | Between
    | InRemoval(path: string, n: nat)
    | InListing(table: SSTable, n: nat)
    | InCheckpoint(table: SSTable, n: nat)

  /** The line or the checkpoint has that many characters, and there is a checkpoint to write. */
  predicate Cuts(s: Manager, tear: Tear) {
    match tear
    case Between => true
    case InRemoval(path, n) => n <= |Serialize(ManifestRecord.RemoveTable(path))|
    case InListing(t, n) => n <= |Serialize(AddRecord(t))|
    case InCheckpoint(t, n) =>
      WithTable(s, t).operations >= CHECKPOINT_INTERVAL && n <= |FileText(AddRecords(AllTables(WithTable(s, t))))|
  }

  /** What is removed is listed. */
  predicate Possible(s: Manager, tear: Tear) {
    Cuts(s, tear) && (tear.InRemoval? ==> tear.path in Paths(AllTables(s)))
  }

  /** The files the crash leaves. */
  function Left(s: Manager, tear: Tear): Manager
    requires Cuts(s, tear)
  {
    match tear
    case Between => s
    case InRemoval(path, n) => TornLog(s, ManifestRecord.RemoveTable(path), n)
    case InListing(t, n) => TornLog(s, AddRecord(t), n)
    case InCheckpoint(t, n) => TornCheckpoint(WithTable(s, t), n)
  }

  /** Files that rebuild a manager which differs from `base` for logged keys only. */
  ghost predicate Standing(m: Medium, base: Manager, s: Manager, logged: map<string, Value>) {
    Durable(m, s) && SameUnlogged(base, s, logged) && StraysLogged(s, logged)
  }

  /** The table of a tear is a new one with its file written. */
  ghost predicate NewTo(m: Medium, s: Manager, t: SSTable) {
    Backed(m, s.disk, t) && forall o :: o in AllTables(s) ==> o.path != t.path
  }

  lemma {:induction false} ListedIsClean(m: Medium, s: Manager, path: string)
    requires Durable(m, s) && path in Paths(AllTables(s))
    ensures Clean(ManifestRecord.RemoveTable(path))
  {
    hide Clean, AllTables, ManifestDurable;
    var t :| t in AllTables(s) && t.path == path;
    assert Backed(m, s.disk, t);
    BackedIsClean(m, s.disk, t, s.nextId);
  }

  lemma {:induction false} FreshIsClean(m: Medium, s: Manager, t: SSTable)
    requires Durable(m, s) && NewTo(m, s, t)
    ensures Clean(AddRecord(t)) && t.path in s.disk && Durable(m, WithTable(s, t))
  {
    hide Clean, AllTables, ManifestDurable;
    assert Backed(m, s.disk, t) && Issued(t.path, s.nextId);
    BackedIsClean(m, s.disk, t, s.nextId);
    hide Durable, Backed;
    InstallKeepsDurable(m, s, t);
  }

  /** Apart from a checkpoint a tear leaves what was there before the step, or what is there after it. */
  lemma {:induction false} TearFinds(m: Medium, s: Manager, tear: Tear)
    requires Durable(m, s) && Possible(s, tear) && !tear.InCheckpoint? && (tear.InListing? ==> NewTo(m, s, tear.table))
    ensures var found := Reopened(Left(s, tear));
            AlikeManagers(found, Reopened(s)) || (tear.InListing? && AlikeManagers(found, Reopened(WithTable(s, tear.table))))
  {
    hide Durable, NewTo, Reopened, Alike, Clean, Serialize, AllTables, Paths;
    match tear
    case Between =>
      AlikeSelf(s);
    case InRemoval(path, n) =>
      ListedIsClean(m, s, path);
      TornRemovalFinds(m, s, path, n);
    case InListing(t, n) =>
      FreshIsClean(m, s, t);
      TornListingFinds(m, s, t, n);
  }

  lemma {:induction false} AlikeSelf(s: Manager)
    ensures AlikeManagers(Reopened(s), Reopened(s))
  {
    hide Reopened;
  }

  /** After the step, too, the manager stands. */
  ghost predicate StandingAfter(m: Medium, base: Manager, s: Manager, tear: Tear, logged: map<string, Value>) {
    (tear.InListing? || tear.InCheckpoint?) ==>
      && NewTo(m, s, tear.table) && SameUnlogged(base, WithTable(s, tear.table), logged)
      && StraysLogged(WithTable(s, tear.table), logged)
  }

  /** What else a torn checkpoint asks for: the log knows the keys of the tables that it leaves out. */
  ghost predicate CutLogged(s: Manager, tear: Tear, logged: map<string, Value>)
    requires Cuts(s, tear)
  {
    tear.InCheckpoint? ==>
      var w := WithTable(s, tear.table);
      OldFits(w) ==> MissingLogged(w, LinesRead(w, tear.n), logged)
  }

  /** Whatever the crash leaves of the step, a restart makes up for it. */
  lemma {:induction false} TearSurvives(m: Medium, base: Manager, s: Manager, tear: Tear, logged: map<string, Value>)
    requires Possible(s, tear) && Standing(m, base, s, logged) && StandingAfter(m, base, s, tear, logged) && CutLogged(s, tear, logged)
    ensures Survivable(m, base, Reopened(Left(s, tear)), logged)
  {
    hide Durable, NewTo, Reopened, AlikeManagers, SameUnlogged, StraysLogged, Survivable, Clean, MissingLogged, OldFits, Serialize, AllTables, LinesRead, Paths;
    DurableSurvives(m, base, s, logged);
    if tear.InCheckpoint? {
      var w := WithTable(s, tear.table);
      FreshIsClean(m, s, tear.table);
      TornCheckpointFinds(m, w, tear.n);
      TornCheckpointSurvives(m, base, w, tear.n, logged);
    } else {
      TearFinds(m, s, tear);
      if AlikeManagers(Reopened(Left(s, tear)), Reopened(s)) {
        AlikeSurvives(m, base, Reopened(Left(s, tear)), Reopened(s), logged);
      } else {
        FreshIsClean(m, s, tear.table);
        DurableSurvives(m, base, WithTable(s, tear.table), logged);
        AlikeSurvives(m, base, Reopened(Left(s, tear)), Reopened(WithTable(s, tear.table)), logged);
      }
    }
  }

  /** Listing a table, with or without the checkpoint that may follow, leaves the same lists and files. */
  lemma {:induction false} InstalledSame(base: Manager, s: Manager, t: SSTable, logged: map<string, Value>)
    requires SameUnlogged(base, InstallTable(s, t), logged) && StraysLogged(InstallTable(s, t), logged)
    ensures SameUnlogged(base, WithTable(s, t), logged) && StraysLogged(WithTable(s, t), logged)
  {
    var a, b := WithTable(s, t), InstallTable(s, t);
    assert a.l0 == b.l0 && a.l1 == b.l1 && a.l2 == b.l2 && a.disk == b.disk;
    hide WithTable, InstallTable, Overlay;
    forall x, k | IsStray(a, x) && HasKey(RecordsOf(x), k)
      ensures k in logged
    {
      assert IsStray(b, x) && HasKey(RecordsOf(x), k);
    }
  }

  /** Whether the crash falls into the listing of a table. */
  predicate IsListing(tear: Tear) {
    tear.InListing? || tear.InCheckpoint?
  }

  lemma {:induction false} InstallNext(r: Manager, outs: seq<SSTable>, i: nat)
    requires i < |outs|
    ensures InstallTables(r, outs[..i + 1]) == InstallTable(InstallTables(r, outs[..i]), outs[i])
  {
    TakeNext(outs, i);
    InitOfSnoc(outs[..i], outs[i]);
    hide InstallTable;
  }

  /** The next of some new tables is still new when those before it are listed. */
  lemma {:induction false} NextIsFresh(m: Medium, r: Manager, outs: seq<SSTable>, i: nat)
    requires Durable(m, r) && DistinctPaths(outs) && i < |outs|
    requires forall t :: t in outs ==> Backed(m, r.disk, t)
    requires forall t, o :: t in outs && o in AllTables(r) ==> o.path != t.path
    ensures NewTo(m, InstallTables(r, outs[..i]), outs[i])
  {
    hide Durable, Backed, InstallTables, AllTables;
    assert forall t :: t in outs[..i] ==> t in outs;
    InstallsKeepDurable(m, r, outs[..i]);
    forall o | o in outs[..i]
      ensures o.path != outs[i].path
    {
    }
  }

  /** When the manager stands with the table and without it, it stands whatever the step leaves. */
  lemma {:induction false} StandsAfter(m: Medium, base: Manager, s: Manager, tear: Tear, next: Manager, logged: map<string, Value>)
    requires IsListing(tear) ==> NewTo(m, s, tear.table) && next == InstallTable(s, tear.table) && Standing(m, base, next, logged)
    ensures StandingAfter(m, base, s, tear, logged)
  {
    hide NewTo, Durable, SameUnlogged, StraysLogged, WithTable, InstallTable;
    if IsListing(tear) {
      InstalledSame(base, s, tear.table, logged);
    }
  }
}
