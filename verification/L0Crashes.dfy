/** A crash inside an L0 compaction: old tables gone, new ones not yet listed, a manifest write cut off. */
module L0Crashes {
  import opened Seqs
  import opened SortedMap
  import opened Records
  import opened KWay
  import opened TableBuilder
  import opened Splitting
  import opened Selection
  import opened Leveling
  import opened ManagerState
  import opened Durability
  import opened DurableSteps
  import opened DurableCompaction
  import opened Compactions
  import opened Commands
  import opened WriteAheadLog
  import opened EngineState
  import opened Recovery
  import opened TakenOut
  import opened Strays
  import opened CrashAnswers
  import opened CrashLevels
  import opened CrashSteps

  /** The compaction of the choice has taken out so many of its tables, highest index first, and then listed so many of
      the new ones. */
  ghost predicate ReachedL0(m: Medium, s: Manager, c: seq<nat>, removed: nat, installed: nat) {
    && InRange(s.l0, c) && Distinct(c) && removed <= |SortDescending(c)| && installed <= |OutputL0(m, s, c)|
    && (installed > 0 ==> removed == |SortDescending(c)|)
  }

  /** The manager at that point. */
  ghost function MidL0(m: Medium, s: Manager, c: seq<nat>, removed: nat, installed: nat): Manager
    requires ReachedL0(m, s, c, removed, installed)
  {
    SortDescendingExact(c, |s.l0|);
    InstallTables(RemoveTables(WrittenL0(m, s, c), L0, SortDescending(c)[..removed]), OutputL0(m, s, c)[..installed])
  }

  lemma {:induction false} MidL0Lists(m: Medium, s: Manager, c: seq<nat>, removed: nat, installed: nat)
    requires ReachedL0(m, s, c, removed, installed)
    ensures var t := MidL0(m, s, c, removed, installed);
            && t.l0 == Unchosen(s.l0, SortDescending(c)[..removed])
            && t.l1 == s.l1 + OutputL0(m, s, c)[..installed] && t.l2 == s.l2
            && forall i :: i in SortDescending(c)[..removed] ==> i in c
  {
    SortDescendingExact(c, |s.l0|);
    hide OutputL0, SortDescending, RemoveTables, InstallTables;
    var d := SortDescending(c);
    OutputLevels(m, s, c);
    MovedToL1(WrittenL0(m, s, c), d[..removed], OutputL0(m, s, c)[..installed]);
    assert forall i :: i in d[..removed] ==> i in d;
  }

  /** What has to fit is what is listed. */
  lemma {:induction false} MidL0Durable(m: Medium, s: Manager, c: seq<nat>, removed: nat, installed: nat)
    requires ValidMedium(m) && Durable(m, s) && ReachedL0(m, s, c, removed, installed)
    requires installed > 0 ==> MergeFits(m, Pick(s.l0, c), false)
    ensures Durable(m, MidL0(m, s, c, removed, installed))
  {
    hide Durable, Backed, OutputL0, RemoveTables, InstallTables, SortDescending, MergeFits, ValidMedium, WriteMerged;
    SortDescendingExact(c, |s.l0|);
    var w, d, ts := WrittenL0(m, s, c), SortDescending(c)[..removed], OutputL0(m, s, c);
    DescendingPrefix(SortDescending(c), removed, |s.l0|);
    OutputLevels(m, s, c);
    if installed == 0 {
      WrittenStaysDurable(m, s, Pick(s.l0, c), L1, false);
      RemovalsKeepDurable(m, w, L0, d);
      NothingInstalled(RemoveTables(w, L0, d), ts);
    } else {
      WrittenL0Durable(m, s, c);
      PrefixDistinct(ts, installed);
      hide DistinctPaths, WrittenL0;
      ReplacedL0(m, w, d, ts[..installed]);
    }
  }

  lemma {:induction false} OutputL0Facts(m: Medium, s: Manager, c: seq<nat>)
    requires ValidMedium(m) && InRange(s.l0, c)
    ensures AllValid(m.hasher, OutputL0(m, s, c)) && AscendingRanges(OutputL0(m, s, c))
    ensures Overlay(Stack(OutputL0(m, s, c))) == Overlay(Stack(Pick(s.l0, c)))
  {
    hide WrittenTables, Overlay, Split, MergedRecords, AllValid, AscendingRanges, Emitted, ValidMedium;
    WrittenExact(m, s.(nextId := s.nextId + 1), Pick(s.l0, c), L1, false);
  }

  /** A key that is not in the log is in none of the tables that move. */
  lemma {:induction false} MidL0Same(m: Medium, s: Manager, c: seq<nat>, removed: nat, installed: nat, k: string)
    requires ValidMedium(m) && ReachedL0(m, s, c, removed, installed) && k !in Overlay(Stack(Pick(s.l0, c)))
    ensures Lookup(Raw(MidL0(m, s, c, removed, installed)), k) == Lookup(Raw(s), k)
  {
    MidL0Lists(m, s, c, removed, installed);
    OutputL0Facts(m, s, c);
    var outs, d := OutputL0(m, s, c), SortDescending(c)[..removed];
    hide MidL0, SortDescending, OutputL0, Overlay, Stack, Raw, HasKey, AllValid;
    forall i | 0 <= i < |s.l0| && i in d
      ensures !HasKey(RecordsOf(s.l0[i]), k)
    {
      ChosenLacks(s.l0, c, i, k);
    }
    KeyElsewhere(s.l0, d, k);
    AddedElsewhere(s.l1, outs, installed, k);
    RawByLevel(s, MidL0(m, s, c, removed, installed), k);
  }

  lemma {:induction false} RemovedL0Strays(m: Medium, s: Manager, c: seq<nat>, removed: nat)
    requires InRange(s.l0, c) && Distinct(c) && removed <= |SortDescending(c)| && ListedBut(s, {})
    ensures var w, d := WrittenL0(m, s, c), SortDescending(c)[..removed];
            && Descending(d, |w.l0|) && Filed(w.disk, OutputL0(m, s, c))
            && ListedBut(RemoveTables(w, L0, d), Paths(OutputL0(m, s, c))) && OnlyLoses(w, RemoveTables(w, L0, d))
  {
    hide ListedBut, Paths, SortDescending, RemoveTables, OnlyLoses, WriteMerged, WrittenTables, Descending, Filed;
    WrittenListed(m, s, Pick(s.l0, c), L1, false);
    WrittenFiled(m, s.(nextId := s.nextId + 1), Pick(s.l0, c), L1, false);
    OutputLevels(m, s, c);
    SortDescendingExact(c, |s.l0|);
    RemovingStrays(WrittenL0(m, s, c), L0, SortDescending(c), removed, OutputL0(m, s, c));
  }

  lemma {:induction false} MidL0Strays(m: Medium, s: Manager, c: seq<nat>, removed: nat, installed: nat, logged: map<string, Value>)
    requires ValidMedium(m) && ListedBut(s, {}) && ReachedL0(m, s, c, removed, installed)
    requires KeysLogged(Pick(s.l0, c), logged)
    ensures StraysLogged(MidL0(m, s, c, removed, installed), logged)
  {
    hide ListedBut, Paths, Filed, SortDescending, RemoveTables, InstallTables, OnlyLoses, KeysLogged,
         ValidMedium, AllValid, Overlay, Stack, WrittenL0, OutputL0, StraysLogged;
    var w, d, outs := WrittenL0(m, s, c), SortDescending(c)[..removed], OutputL0(m, s, c);
    RemovedL0Strays(m, s, c, removed);
    OutputL0Facts(m, s, c);
    InstallingStrays(w, RemoveTables(w, L0, d), outs, installed, Pick(s.l0, c), logged);
  }

  lemma {:induction false} MidL0Stands(m: Medium, s: Manager, c: seq<nat>, removed: nat, installed: nat, logged: map<string, Value>)
    requires ValidMedium(m) && Durable(m, s) && ListedBut(s, {}) && ReachedL0(m, s, c, removed, installed)
    requires installed > 0 ==> MergeFits(m, Pick(s.l0, c), false)
    requires KeysLogged(Pick(s.l0, c), logged)
    ensures Standing(m, s, MidL0(m, s, c, removed, installed), logged)
  {
    MidL0Strays(m, s, c, removed, installed, logged);
    hide Durable, MidL0, OutputL0, Raw, MergeFits, ValidMedium, ReachedL0, StraysLogged, ListedBut, Overlay, Stack;
    MidL0Durable(m, s, c, removed, installed);
    forall k | k !in logged
      ensures Lookup(Raw(MidL0(m, s, c, removed, installed)), k) == Lookup(Raw(s), k)
    {
      MidL0Same(m, s, c, removed, installed, k);
    }
  }

  /** The path of the table whose turn it is to go. */
  function NextGone(s: Manager, c: seq<nat>, removed: nat): string
    requires InRange(s.l0, c) && Distinct(c) && removed < |SortDescending(c)|
  {
    SortDescendingExact(c, |s.l0|);
    s.l0[SortDescending(c)[removed]].path
  }

  /** The crash cuts off what the compaction does next. */
  ghost predicate TearsL0(m: Medium, s: Manager, c: seq<nat>, removed: nat, installed: nat, tear: Tear)
    requires ReachedL0(m, s, c, removed, installed)
  {
    && Cuts(MidL0(m, s, c, removed, installed), tear)
    && match tear
       case Between => true
       case InRemoval(path, _) => removed < |SortDescending(c)| && path == NextGone(s, c, removed)
       case InListing(t, _) => NextListed(m, s, c, removed, installed, t)
       case InCheckpoint(t, _) => NextListed(m, s, c, removed, installed, t)
  }

  ghost predicate NextListed(m: Medium, s: Manager, c: seq<nat>, removed: nat, installed: nat, t: SSTable)
    requires InRange(s.l0, c)
  {
    removed == |SortDescending(c)| && installed < |OutputL0(m, s, c)| && t == OutputL0(m, s, c)[installed]
  }

  /** The sizes of the new tables fit as soon as one of them is being listed. */
  ghost predicate FitsL0(m: Medium, s: Manager, c: seq<nat>, installed: nat, tear: Tear)
    requires InRange(s.l0, c)
  {
    installed > 0 || IsListing(tear) ==> MergeFits(m, Pick(s.l0, c), false)
  }

  /** The table whose turn it is to go is still listed. */
  lemma {:induction false} NextGoneListed(m: Medium, s: Manager, c: seq<nat>, removed: nat)
    requires ReachedL0(m, s, c, removed, 0) && removed < |SortDescending(c)|
    ensures NextGone(s, c, removed) in Paths(AllTables(MidL0(m, s, c, removed, 0)))
  {
    var t, d := MidL0(m, s, c, removed, 0), SortDescending(c);
    SortDescendingExact(c, |s.l0|);
    MidL0Lists(m, s, c, removed, 0);
    hide MidL0, SortDescending, Unchosen, OutputL0, Paths, AllTables;
    assert d[removed] !in d[..removed];
    UnchosenHas(s.l0, d[..removed], d[removed]);
    PathListed(t, L0, s.l0[d[removed]]);
  }

  lemma {:induction false} PossibleL0(m: Medium, s: Manager, c: seq<nat>, removed: nat, installed: nat, tear: Tear)
    requires ReachedL0(m, s, c, removed, installed) && TearsL0(m, s, c, removed, installed, tear)
    ensures Possible(MidL0(m, s, c, removed, installed), tear)
  {
    hide MidL0, OutputL0, SortDescending, Cuts, Paths, AllTables, NextGone;
    if tear.InRemoval? {
      NextGoneListed(m, s, c, removed);
    }
  }

  lemma {:induction false} FreshL0(m: Medium, s: Manager, c: seq<nat>, installed: nat)
    requires ValidMedium(m) && Durable(m, s) && ReachedL0(m, s, c, |SortDescending(c)|, installed) && installed < |OutputL0(m, s, c)|
    requires MergeFits(m, Pick(s.l0, c), false)
    ensures NewTo(m, MidL0(m, s, c, |SortDescending(c)|, installed), OutputL0(m, s, c)[installed])
  {
    hide Durable, Backed, OutputL0, RemoveTables, InstallTables, SortDescending, MergeFits, ValidMedium, NewTo, DistinctPaths, AllTables;
    SortDescendingExact(c, |s.l0|);
    WrittenL0Durable(m, s, c);
    var w, d, ts := WrittenL0(m, s, c), SortDescending(c), OutputL0(m, s, c);
    hide WrittenL0;
    TakeAll(d);
    RemovalsKeepDurable(m, w, L0, d);
    RemovedStillBacked(m, w, L0, d, ts);
    NextIsFresh(m, RemoveTables(w, L0, d), ts, installed);
  }

  lemma {:induction false} NextL0(m: Medium, s: Manager, c: seq<nat>, installed: nat)
    requires ReachedL0(m, s, c, |SortDescending(c)|, installed) && installed < |OutputL0(m, s, c)|
    ensures MidL0(m, s, c, |SortDescending(c)|, installed + 1) ==
            InstallTable(MidL0(m, s, c, |SortDescending(c)|, installed), OutputL0(m, s, c)[installed])
  {
    hide OutputL0, RemoveTables, InstallTables, InstallTable, SortDescending, WrittenL0;
    SortDescendingExact(c, |s.l0|);
    OutputLevels(m, s, c);
    TakeAll(SortDescending(c));
    InstallNext(RemoveTables(WrittenL0(m, s, c), L0, SortDescending(c)[..|SortDescending(c)|]), OutputL0(m, s, c), installed);
  }

  lemma {:induction false} StandsAfterL0(m: Medium, s: Manager, c: seq<nat>, removed: nat, installed: nat, tear: Tear, logged: map<string, Value>)
    requires ValidMedium(m) && Durable(m, s) && ListedBut(s, {}) && ReachedL0(m, s, c, removed, installed)
    requires TearsL0(m, s, c, removed, installed, tear) && FitsL0(m, s, c, installed, tear) && KeysLogged(Pick(s.l0, c), logged)
    ensures StandingAfter(m, s, MidL0(m, s, c, removed, installed), tear, logged)
  {
    hide Durable, MidL0, OutputL0, MergeFits, ValidMedium, SortDescending, ListedBut, KeysLogged, Cuts, Standing, StandingAfter, NewTo, InstallTable;
    var mid, next := MidL0(m, s, c, removed, installed), MidL0(m, s, c, removed, installed);
    if IsListing(tear) {
      FreshL0(m, s, c, installed);
      NextL0(m, s, c, installed);
      next := MidL0(m, s, c, removed, installed + 1);
      MidL0Stands(m, s, c, removed, installed + 1, logged);
    }
    StandsAfter(m, s, mid, tear, next, logged);
  }

  /** The restart after a crash inside an L0 compaction. */
  ghost function AfterL0Crash(c: Setup, db: Db, choice: seq<nat>, removed: nat, installed: nat, tear: Tear): Db
    requires ReachedL0(c.medium, db.tables, choice, removed, installed)
    requires TearsL0(c.medium, db.tables, choice, removed, installed, tear)
  {
    Restart(c, db.(tables := Left(MidL0(c.medium, db.tables, choice, removed, installed), tear)))
  }

  /** A crash inside an L0 compaction, between two writes or in the middle of a manifest line or of a checkpoint: when the
      log knows every key of the tables that are merged, and of those a torn checkpoint leaves out, scans and lookups
      answer as before. */
  lemma {:induction false} CrashInL0Compaction(c: Setup, db: Db, spec: map<string, string>, parts: seq<seq<Command>>,
                                               choice: seq<nat>, removed: nat, installed: nat, tear: Tear, strays: seq<SSTable>, key: string)
    requires ValidMedium(c.medium) && Shows(c, db, spec) && Recovers(c, db, spec, parts) && ListedBut(db.tables, {})
    requires ReachedL0(c.medium, db.tables, choice, removed, installed)
    requires TearsL0(c.medium, db.tables, choice, removed, installed, tear) && FitsL0(c.medium, db.tables, choice, installed, tear)
    requires KeysLogged(Pick(db.tables.l0, choice), Logged(parts))
    requires CutLogged(MidL0(c.medium, db.tables, choice, removed, installed), tear, Logged(parts))
    requires forall o :: o in strays ==> IsStray(AfterL0Crash(c, db, choice, removed, installed, tear).tables, o)
    ensures var r := Adopt(AfterL0Crash(c, db, choice, removed, installed, tear), strays);
            Live(RawDb(r)) == spec && Answer(Search(c.medium.hasher, r, key)) == Lookup(spec, key)
  {
    OpenedUp(c, db, spec, parts);
    var m, s, logged := c.medium, db.tables, Logged(parts);
    var mid := MidL0(m, s, choice, removed, installed);
    hide Shows, Recovers, Durable, ValidLevels, ListedBut, MidL0, MergeFits, KeysLogged, ValidMedium, ReachedL0, Survivable, Logged, IsStray,
         HoldsLog, StandingAfter, Standing, CutLogged, Cuts, Possible, Left, Reopened;
    PossibleL0(m, s, choice, removed, installed, tear);
    MidL0Stands(m, s, choice, removed, installed, logged);
    StandsAfterL0(m, s, choice, removed, installed, tear, logged);
    TearSurvives(m, s, mid, tear, logged);
    CrashServes(c, db, spec, parts, Left(mid, tear), strays, key);
  }

  /** The keys of the new tables listed so far. */
  ghost function Again(m: Medium, s: Manager, c: seq<nat>, installed: nat): set<string>
    requires InRange(s.l0, c) && installed <= |OutputL0(m, s, c)|
  {
    Overlay(Stack(OutputL0(m, s, c)[..installed])).Keys
  }

  /** What L0 lies upon. */
  ghost function Under(s: Manager): map<string, Value> {
    Overlay(Stack(s.l2)) + Overlay(Stack(s.l1))
  }

  /** The raw map at a crash point, with contents `ts` in L0 and the keys listed again as they are. */
  ghost function RawL0(m: Medium, s: Manager, c: seq<nat>, removed: nat, installed: nat, ts: seq<seq<Record>>): map<string, Value>
    requires ReachedL0(m, s, c, removed, installed) && InRange(ts, c)
  {
    Relisted(Under(s), ts, c, SortDescending(c)[..removed], Again(m, s, c, installed))
  }

  lemma {:induction false} AgainRestricts(m: Medium, s: Manager, c: seq<nat>, installed: nat)
    requires ValidMedium(m) && InRange(s.l0, c) && installed <= |OutputL0(m, s, c)|
    ensures InRange(Stack(s.l0), c)
    ensures Overlay(Stack(OutputL0(m, s, c)[..installed])) == Restricted(Overlay(Pick(Stack(s.l0), c)), Again(m, s, c, installed))
  {
    hide Overlay, OutputL0, Stack, Restricted, Pick;
    OutputL0Facts(m, s, c);
    StackPick(s.l0, c);
    PrefixRestricts(m.hasher, OutputL0(m, s, c), installed);
  }

  lemma {:induction false} MidL0Raw(m: Medium, s: Manager, c: seq<nat>, removed: nat, installed: nat)
    requires ValidMedium(m) && ReachedL0(m, s, c, removed, installed)
    ensures Raw(MidL0(m, s, c, removed, installed)) == RawL0(m, s, c, removed, installed, Stack(s.l0))
    ensures Raw(s) == Under(s) + Overlay(Stack(s.l0))
  {
    hide Overlay, OutputL0, Stack, SortDescending, Restricted, MidL0, Again, Unchosen, Pick;
    var outs, d := OutputL0(m, s, c), SortDescending(c)[..removed];
    MidL0Lists(m, s, c, removed, installed);
    AgainRestricts(m, s, c, installed);
    StackUnchosen(s.l0, d);
    StackConcat(s.l1, outs[..installed]);
    OverlayConcat(Stack(s.l1), Stack(outs[..installed]));
    UnionAssociates(Overlay(Stack(s.l2)), Overlay(Stack(s.l1)), Overlay(Stack(outs[..installed])));
  }

  lemma {:induction false} GoingL0(m: Medium, s: Manager, c: seq<nat>, removed: nat, installed: nat)
    requires ReachedL0(m, s, c, removed, installed)
    ensures Going(c, SortDescending(c)[..removed], Again(m, s, c, installed))
  {
    var d := SortDescending(c);
    SortDescendingExact(c, |s.l0|);
    hide SortDescending, OutputL0;
    assert forall i :: i in d[..removed] ==> i in d;
    if installed == 0 {
      assert Stack(OutputL0(m, s, c)[..0]) == [];
    } else {
      TakeAll(d);
    }
  }

  /** Every key but the empty one that the log does not know, and whose newest record of L0 lies in a removed table, has
      come back out of the merge with that record. */
  ghost predicate KeptL0(m: Medium, s: Manager, c: seq<nat>, removed: nat, installed: nat, logged: map<string, Value>)
    requires ReachedL0(m, s, c, removed, installed)
  {
    NewestRelisted(Stack(s.l0), c, SortDescending(c)[..removed], Again(m, s, c, installed), logged.Keys)
  }

  /** The exact condition at every crash point: for every content that L0 may have with its keys, a reader sees no
      difference for any key but the empty one that the log does not know, if and only if `KeptL0` holds. */
  lemma {:induction false} L0CrashExactly(m: Medium, s: Manager, c: seq<nat>, removed: nat, installed: nat, logged: map<string, Value>)
    requires ValidMedium(m) && ValidLevels(m, s) && ReachedL0(m, s, c, removed, installed)
    ensures KeptL0(m, s, c, removed, installed, logged) <==>
            forall us: seq<seq<Record>> :: SameKeys(Stack(s.l0), us) ==>
              Agree(RawL0(m, s, c, removed, installed, us), Under(s) + Overlay(us), logged.Keys)
  {
    ValidSorted(m.hasher, s.l0);
    GoingL0(m, s, c, removed, installed);
    hide Relisted, Again, Under, Overlay, SortDescending, Going, NewestRelisted, Agree, AllSorted, ValidLevels, ValidMedium;
    RelistedExactly(Under(s), Stack(s.l0), c, SortDescending(c)[..removed], Again(m, s, c, installed), logged.Keys);
  }

  /** The levels a restart finds at a crash point. */
  lemma {:induction false} FoundL0(m: Medium, s: Manager, c: seq<nat>, removed: nat, installed: nat)
    requires ValidMedium(m) && Durable(m, s) && ReachedL0(m, s, c, removed, installed)
    requires installed > 0 ==> MergeFits(m, Pick(s.l0, c), false)
    ensures var found := Reopened(MidL0(m, s, c, removed, installed));
            ValidLists(m.hasher, found) && Raw(found) == RawL0(m, s, c, removed, installed, Stack(s.l0))
  {
    hide Durable, Reopened, MidL0, ReachedL0, Raw, RawL0, ValidLists, MergeFits, ValidMedium;
    MidL0Durable(m, s, c, removed, installed);
    ReopenedLists(m, MidL0(m, s, c, removed, installed));
    MidL0Raw(m, s, c, removed, installed);
  }

  /** The restart at a crash point between two writes. */
  ghost function AfterL0(c: Setup, db: Db, choice: seq<nat>, removed: nat, installed: nat): Db
    requires ReachedL0(c.medium, db.tables, choice, removed, installed)
  {
    Restart(c, db.(tables := MidL0(c.medium, db.tables, choice, removed, installed)))
  }

  /** What a lookup is told after the restart, whatever unlisted files start-up picks up: the log's word if it knows the
      key, else that of the levels as the compaction left them. With `KeptL0` that is the answer before the crash. */
  lemma {:induction false} L0CrashAnswers(c: Setup, db: Db, spec: map<string, string>, parts: seq<seq<Command>>,
                                          choice: seq<nat>, removed: nat, installed: nat, strays: seq<SSTable>, key: string)
    requires ValidMedium(c.medium) && Shows(c, db, spec) && Recovers(c, db, spec, parts) && key != ""
    requires ReachedL0(c.medium, db.tables, choice, removed, installed)
    requires installed > 0 ==> MergeFits(c.medium, Pick(db.tables.l0, choice), false)
    requires forall o :: o in strays ==> IsStray(AfterL0(c, db, choice, removed, installed).tables, o)
    ensures var answer := Answer(Search(c.medium.hasher, Adopt(AfterL0(c, db, choice, removed, installed), strays), key));
            && answer == (if key in Logged(parts) then Lookup(spec, key)
                          else Answer(Lookup(RawL0(c.medium, db.tables, choice, removed, installed, Stack(db.tables.l0)), key)))
            && (KeptL0(c.medium, db.tables, choice, removed, installed, Logged(parts)) ==> answer == Lookup(spec, key))
  {
    OpenedUp(c, db, spec, parts);
    var m, s, logged := c.medium, db.tables, Logged(parts);
    hide Shows, Recovers, Durable, ValidLevels, MidL0, MergeFits, ValidMedium, ReachedL0, Logged, IsStray, HoldsLog, Reopened, Raw, RawL0, Search, ValidLists;
    FoundL0(m, s, choice, removed, installed);
    RestartAnswers(c, db, spec, parts, MidL0(m, s, choice, removed, installed), strays, key);
    if key !in logged && KeptL0(m, s, choice, removed, installed, logged) {
      UnloggedAnswer(c, db, spec, parts, key);
      KeptAnswers(m, s, choice, removed, installed, logged, key);
    }
  }

  lemma {:induction false} KeptAnswers(m: Medium, s: Manager, c: seq<nat>, removed: nat, installed: nat, logged: map<string, Value>, key: string)
    requires ValidMedium(m) && ReachedL0(m, s, c, removed, installed) && KeptL0(m, s, c, removed, installed, logged)
    requires key != "" && key !in logged
    ensures Lookup(RawL0(m, s, c, removed, installed, Stack(s.l0)), key) == Lookup(Raw(s), key)
  {
    MidL0Raw(m, s, c, removed, installed);
    GoingL0(m, s, c, removed, installed);
    hide Relisted, Again, Under, Overlay, SortDescending, Going, NewestRelisted, Raw, ValidMedium;
    RelistedAgrees(Under(s), Stack(s.l0), c, SortDescending(c)[..removed], Again(m, s, c, installed), logged.Keys, key);
  }

  lemma {:induction false} NothingAgain(m: Medium, s: Manager, c: seq<nat>)
    requires InRange(s.l0, c)
    ensures Again(m, s, c, 0) == {}
  {
    hide OutputL0;
    assert Stack(OutputL0(m, s, c)[..0]) == [];
  }

  /** With no new table listed yet, a key that the log does not know, and that no table left in L0 holds, has the answer of the
      levels below: a deleted key comes back there, and an overwritten value. */
  lemma {:induction false} OlderComesBack(c: Setup, db: Db, spec: map<string, string>, parts: seq<seq<Command>>,
                                          choice: seq<nat>, removed: nat, strays: seq<SSTable>, key: string)
    requires ValidMedium(c.medium) && Shows(c, db, spec) && Recovers(c, db, spec, parts) && key != "" && key !in Logged(parts)
    requires ReachedL0(c.medium, db.tables, choice, removed, 0)
    requires key !in Overlay(Unchosen(Stack(db.tables.l0), SortDescending(choice)[..removed]))
    requires forall o :: o in strays ==> IsStray(AfterL0(c, db, choice, removed, 0).tables, o)
    ensures Answer(Search(c.medium.hasher, Adopt(AfterL0(c, db, choice, removed, 0), strays), key)) == Answer(Lookup(Under(db.tables), key))
  {
    NothingAgain(c.medium, db.tables, choice);
    hide Shows, Recovers, ValidMedium, Logged, IsStray, AfterL0, Search, Overlay, Unchosen, Pick, Under, SortDescending, Again, OutputL0, KeptL0, Answer;
    L0CrashAnswers(c, db, spec, parts, choice, removed, 0, strays, key);
  }
}
