/** The same for an L1 compaction, which drops tombstones besides. */
module L1Crashes {
  import opened Seqs
  import opened SortedMap
  import opened Records
  import opened KWay
  import opened TableBuilder
  import opened Splitting
  import opened Selection
  import opened Leveling
  import opened ManagerState
  import opened Durability
  import opened DurableSteps
  import opened DurableCompaction
  import opened Compactions
  import opened Commands
  import opened WriteAheadLog
  import opened EngineState
  import opened Recovery
  import opened TakenOut
  import opened Strays
  import opened CrashAnswers
  import opened TornCheckpoints
  import opened CrashLevels
  import opened CrashSteps

  /** The tables of L2 that the oldest table of L1 is merged with. */
  function Met(s: Manager): (c: seq<nat>)
    requires s.l1 != []
    ensures InRange(s.l2, c) && Ascending(c)
  {
    OverlapIndicesExact(s.l2, s.l1[0].minKey, s.l1[0].maxKey);
    OverlapIndices(s.l2, s.l1[0].minKey, s.l1[0].maxKey)
  }

  /** What takes part in the next L1 compaction. */
  function NextInput(s: Manager): seq<SSTable>
    requires s.l1 != []
  {
    InputL1(s, 0, Met(s))
  }

  ghost function NextOutput(m: Medium, s: Manager): seq<SSTable>
    requires s.l1 != []
  {
    OutputL1(m, s, 0, Met(s))
  }

  ghost function NextWritten(m: Medium, s: Manager): Manager
    requires s.l1 != []
  {
    WrittenL1(m, s, 0, Met(s))
  }

  lemma {:induction false} MetDescends(m: Medium, s: Manager, removed: nat)
    requires s.l1 != [] && removed <= |Met(s)|
    ensures var w, d := NextWritten(m, s), Reverse(Met(s));
            && w.l0 == s.l0 && w.l1 == s.l1 && w.l2 == s.l2
            && Descending(d, |w.l2|) && Descending(d[..removed], |w.l2|)
            && forall i :: i in d[..removed] ==> i in Met(s)
  {
    hide Met, WriteMerged;
    WrittenL1Levels(m, s, 0, Met(s));
    ReverseSameSet(Met(s));
    DescendingPrefix(Reverse(Met(s)), removed, |s.l2|);
  }

  lemma {:induction false} MidL1Ready(m: Medium, s: Manager, removed: nat)
    requires s.l1 != [] && removed <= |Met(s)|
    ensures var w, d := NextWritten(m, s), Reverse(Met(s))[..removed];
            Descending(d, |LevelList(w, L2)|) && RemoveTables(w, L2, d).l1 == s.l1
  {
    hide NextWritten, Met, RemoveTables, Descending;
    MetDescends(m, s, removed);
    RemovedFromL2(NextWritten(m, s), Reverse(Met(s))[..removed]);
  }

  /** The next L1 compaction has taken out so many of the tables of L2 it has met, last one first, then the oldest table of
      L1, and has listed so many of the new ones. */
  ghost predicate ReachedL1(m: Medium, s: Manager, removed: nat, moved: bool, installed: nat) {
    && s.l1 != [] && removed <= |Met(s)| && (moved ==> removed == |Met(s)|)
    && installed <= |NextOutput(m, s)| && (installed > 0 ==> moved)
  }

  /** The manager at that point. */
  ghost function MidL1(m: Medium, s: Manager, removed: nat, moved: bool, installed: nat): Manager
    requires ReachedL1(m, s, removed, moved, installed)
  {
    MidL1Ready(m, s, removed);
    var r := RemoveTables(NextWritten(m, s), L2, Reverse(Met(s))[..removed]);
    InstallTables(if moved then WithoutTable(r, L1, 0) else r, NextOutput(m, s)[..installed])
  }

  lemma {:induction false} MovedOn(w: Manager, d: seq<nat>, moved: bool, outs: seq<SSTable>)
    requires Descending(d, |w.l2|) && w.l1 != [] && forall j :: 0 <= j < |outs| ==> outs[j].level == L2
    ensures var r := RemoveTables(w, L2, d);
            && r.l1 == w.l1
            && var t := InstallTables(if moved then WithoutTable(r, L1, 0) else r, outs);
               t.l0 == w.l0 && t.l1 == (if moved then w.l1[1..] else w.l1) && t.l2 == Unchosen(w.l2, d) + outs
  {
    hide RemoveTables, InstallTables, Descending;
    RemovedFromL2(w, d);
    var r := RemoveTables(w, L2, d);
    InstalledInL2(if moved then WithoutTable(r, L1, 0) else r, outs);
    assert RemoveAt(w.l1, 0) == w.l1[1..];
  }

  lemma {:induction false} MidL1Lists(m: Medium, s: Manager, removed: nat, moved: bool, installed: nat)
    requires ReachedL1(m, s, removed, moved, installed)
    ensures var t := MidL1(m, s, removed, moved, installed);
            && t.l0 == s.l0 && t.l1 == (if moved then s.l1[1..] else s.l1)
            && t.l2 == Unchosen(s.l2, Reverse(Met(s))[..removed]) + NextOutput(m, s)[..installed]
  {
    hide NextWritten, NextOutput, Met, RemoveTables, InstallTables, Descending, WithoutTable, Unchosen;
    MetDescends(m, s, removed);
    OutputL1Level(m, s);
    MovedOn(NextWritten(m, s), Reverse(Met(s))[..removed], moved, NextOutput(m, s)[..installed]);
  }

  lemma {:induction false} OutputL1Level(m: Medium, s: Manager)
    requires s.l1 != []
    ensures forall j :: 0 <= j < |NextOutput(m, s)| ==> NextOutput(m, s)[j].level == L2
  {
  }

  lemma {:induction false} InputParts(s: Manager, k: string)
    requires s.l1 != [] && k !in Overlay(Stack(NextInput(s)))
    ensures k !in Overlay(Stack(Pick(s.l2, Met(s)))) && k !in Contents(RecordsOf(s.l1[0]))
  {
    hide Overlay, RecordsOf, Contents, Met;
    var picked := Pick(s.l2, Met(s));
    StackConcat(picked, [s.l1[0]]);
    assert Stack([s.l1[0]]) == [RecordsOf(s.l1[0])];
    OverlayConcat(Stack(picked), [RecordsOf(s.l1[0])]);
    OverlaySingle(RecordsOf(s.l1[0]));
  }

  lemma {:induction false} NextOutputFacts(m: Medium, s: Manager)
    requires ValidMedium(m) && s.l1 != []
    ensures AllValid(m.hasher, NextOutput(m, s)) && AscendingRanges(NextOutput(m, s))
    ensures Overlay(Stack(NextOutput(m, s))) == Emitted(Overlay(Stack(NextInput(s))), true)
    ensures forall k :: k in Overlay(Stack(NextOutput(m, s))) ==> k in Overlay(Stack(NextInput(s)))
  {
    hide WrittenTables, Overlay, Split, MergedRecords, AllValid, AscendingRanges, ValidMedium, Met;
    WrittenExact(m, s.(nextId := s.nextId + 1), NextInput(s), L2, true);
  }

  lemma {:induction false} MetElsewhere(m: Medium, s: Manager, removed: nat, installed: nat, k: string)
    requires ValidMedium(m) && s.l1 != [] && removed <= |Met(s)| && installed <= |NextOutput(m, s)|
    requires k !in Overlay(Stack(NextInput(s))) && k !in Overlay(Stack(Pick(s.l2, Met(s))))
    ensures Lookup(Overlay(Stack(Unchosen(s.l2, Reverse(Met(s))[..removed]) + NextOutput(m, s)[..installed])), k) ==
            Lookup(Overlay(Stack(s.l2)), k)
  {
    hide NextOutput, NextInput, NextWritten, Met, Overlay, Stack, HasKey, AllValid, Emitted, AscendingRanges, RecordsOf, ValidMedium, Unchosen;
    MetDescends(m, s, removed);
    NextOutputFacts(m, s);
    var d := Reverse(Met(s))[..removed];
    forall i | 0 <= i < |s.l2| && i in d
      ensures !HasKey(RecordsOf(s.l2[i]), k)
    {
      ChosenLacks(s.l2, Met(s), i, k);
    }
    KeyElsewhere(s.l2, d, k);
    AddedElsewhere(Unchosen(s.l2, d), NextOutput(m, s), installed, k);
  }

  lemma {:induction false} MidL1Same(m: Medium, s: Manager, removed: nat, moved: bool, installed: nat, k: string)
    requires ValidMedium(m) && ReachedL1(m, s, removed, moved, installed)
    requires k !in Overlay(Stack(NextInput(s)))
    ensures Lookup(Raw(MidL1(m, s, removed, moved, installed)), k) == Lookup(Raw(s), k)
  {
    hide MidL1, NextOutput, NextInput, Met, Overlay, Stack, Raw, Contents, RecordsOf, ValidMedium, Unchosen;
    MidL1Lists(m, s, removed, moved, installed);
    InputParts(s, k);
    OldestElsewhere(s.l1, k);
    MetElsewhere(m, s, removed, installed, k);
    RawByLevel(s, MidL1(m, s, removed, moved, installed), k);
  }

  lemma {:induction false} NextWrittenDurable(m: Medium, s: Manager)
    requires ValidMedium(m) && Durable(m, s) && s.l1 != [] && MergeFits(m, NextInput(s), true)
    ensures var w, ts := NextWritten(m, s), NextOutput(m, s);
            && Durable(m, w) && DistinctPaths(ts)
            && (forall t :: t in ts ==> Backed(m, w.disk, t))
            && (forall t, o :: t in ts && o in AllTables(w) ==> o.path != t.path)
  {
    hide Durable, Backed, DistinctPaths, WrittenTables, Met, MergeFits, ValidMedium;
    InputsListed(s, 0, Met(s));
    WrittenDurable(m, s, NextInput(s), L2, true);
  }

  lemma {:induction false} MidL1Durable(m: Medium, s: Manager, removed: nat, moved: bool, installed: nat)
    requires ValidMedium(m) && Durable(m, s) && ReachedL1(m, s, removed, moved, installed)
    requires installed > 0 ==> MergeFits(m, NextInput(s), true)
    ensures Durable(m, MidL1(m, s, removed, moved, installed))
  {
    hide Durable, Backed, NextOutput, NextWritten, NextInput, Met, RemoveTables, InstallTables, MergeFits, ValidMedium, AllTables, Descending;
    MetDescends(m, s, removed);
    MidL1Ready(m, s, removed);
    var w, d, outs := NextWritten(m, s), Reverse(Met(s)), NextOutput(m, s);
    if installed > 0 {
      NextWrittenDurable(m, s);
      TakeAll(d);
      PrefixDistinct(outs, installed);
      hide DistinctPaths;
      ReplacedL1(m, w, 0, d, outs[..installed]);
    } else {
      NextStaysDurable(m, s);
      RemovalsKeepDurable(m, w, L2, d[..removed]);
      if moved {
        RemoveKeepsDurable(m, RemoveTables(w, L2, d[..removed]), L1, 0);
      }
      NothingInstalled(if moved then WithoutTable(RemoveTables(w, L2, d[..removed]), L1, 0) else RemoveTables(w, L2, d[..removed]), outs);
    }
  }

  lemma {:induction false} NextStaysDurable(m: Medium, s: Manager)
    requires Durable(m, s) && s.l1 != []
    ensures Durable(m, NextWritten(m, s))
  {
    hide Durable, WriteMerged, Met;
    WrittenStaysDurable(m, s, NextInput(s), L2, true);
  }

  lemma {:induction false} NextListed(m: Medium, s: Manager)
    requires s.l1 != [] && ListedBut(s, {})
    ensures ListedBut(NextWritten(m, s), Paths(NextOutput(m, s))) && Filed(NextWritten(m, s).disk, NextOutput(m, s))
  {
    hide ListedBut, Paths, WriteMerged, WrittenTables, Met, Filed;
    WrittenListed(m, s, NextInput(s), L2, true);
    WrittenFiled(m, s.(nextId := s.nextId + 1), NextInput(s), L2, true);
  }

  lemma {:induction false} RemovedL1Strays(m: Medium, s: Manager, removed: nat, moved: bool)
    requires s.l1 != [] && removed <= |Met(s)| && ListedBut(s, {})
    requires var w, d := NextWritten(m, s), Reverse(Met(s))[..removed];
             Descending(d, |w.l2|) && RemoveTables(w, L2, d).l1 == s.l1
    ensures var w, r := NextWritten(m, s), RemoveTables(NextWritten(m, s), L2, Reverse(Met(s))[..removed]);
            var q := if moved then WithoutTable(r, L1, 0) else r;
            ListedBut(q, Paths(NextOutput(m, s))) && OnlyLoses(w, q) && Filed(w.disk, NextOutput(m, s))
  {
    hide Filed, ListedBut, OnlyLoses, Paths, RemoveTables, WithoutTable, NextWritten, NextOutput, NextInput, Met, Descending, AllTables;
    NextListed(m, s);
    MetDescends(m, s, removed);
    var w, outs := NextWritten(m, s), NextOutput(m, s);
    RemovingStrays(w, L2, Reverse(Met(s)), removed, outs);
    if moved {
      MovingStrays(w, RemoveTables(w, L2, Reverse(Met(s))[..removed]), outs);
    }
  }

  lemma {:induction false} MidL1Strays(m: Medium, s: Manager, removed: nat, moved: bool, installed: nat, logged: map<string, Value>)
    requires ValidMedium(m) && ListedBut(s, {}) && ReachedL1(m, s, removed, moved, installed) && KeysLogged(NextInput(s), logged)
    ensures StraysLogged(MidL1(m, s, removed, moved, installed), logged)
  {
    hide ListedBut, Paths, Filed, RemoveTables, InstallTables, OnlyLoses, KeysLogged, ValidMedium, Descending,
         AllValid, Overlay, Stack, NextWritten, NextOutput, NextInput, Met, AllTables, StraysLogged;
    var w, d, outs := NextWritten(m, s), Reverse(Met(s))[..removed], NextOutput(m, s);
    MidL1Ready(m, s, removed);
    MetDescends(m, s, removed);
    RemovedL1Strays(m, s, removed, moved);
    NextOutputFacts(m, s);
    var r := RemoveTables(w, L2, d);
    InstallingStrays(w, if moved then WithoutTable(r, L1, 0) else r, outs, installed, NextInput(s), logged);
  }

  lemma {:induction false} MidL1Stands(m: Medium, s: Manager, removed: nat, moved: bool, installed: nat, logged: map<string, Value>)
    requires ValidMedium(m) && Durable(m, s) && ListedBut(s, {}) && ReachedL1(m, s, removed, moved, installed)
    requires installed > 0 ==> MergeFits(m, NextInput(s), true)
    requires KeysLogged(NextInput(s), logged)
    ensures Standing(m, s, MidL1(m, s, removed, moved, installed), logged)
  {
    hide Durable, ReachedL1, MidL1, NextInput, Raw, MergeFits, ValidMedium, ListedBut, Overlay, Stack, StraysLogged;
    MidL1Strays(m, s, removed, moved, installed, logged);
    MidL1Durable(m, s, removed, moved, installed);
    ReachedNext(m, s, removed, moved, installed);
    forall k | k !in logged
      ensures Lookup(Raw(MidL1(m, s, removed, moved, installed)), k) == Lookup(Raw(s), k)
    {
      MidL1Same(m, s, removed, moved, installed, k);
    }
  }

  lemma {:induction false} ReachedNext(m: Medium, s: Manager, removed: nat, moved: bool, installed: nat)
    requires ReachedL1(m, s, removed, moved, installed)
    ensures s.l1 != []
  {
  }

  /** The path of the table whose turn it is to go. */
  function NextGone(s: Manager, removed: nat): string
    requires s.l1 != [] && removed <= |Met(s)|
  {
    if removed < |Met(s)| then s.l2[Met(s)[|Met(s)| - 1 - removed]].path else s.l1[0].path
  }

  /** The crash cuts off what the compaction does next. */
  ghost predicate TearsL1(m: Medium, s: Manager, removed: nat, moved: bool, installed: nat, tear: Tear)
    requires ReachedL1(m, s, removed, moved, installed)
  {
    && Cuts(MidL1(m, s, removed, moved, installed), tear)
    && match tear
       case Between => true
       case InRemoval(path, _) => !moved && path == NextGone(s, removed)
       case InListing(t, _) => moved && installed < |NextOutput(m, s)| && t == NextOutput(m, s)[installed]
       case InCheckpoint(t, _) => moved && installed < |NextOutput(m, s)| && t == NextOutput(m, s)[installed]
  }

  /** The sizes of the new tables fit as soon as one of them is being listed. */
  ghost predicate FitsL1(m: Medium, s: Manager, installed: nat, tear: Tear)
    requires s.l1 != []
  {
    installed > 0 || IsListing(tear) ==> MergeFits(m, NextInput(s), true)
  }

  lemma {:induction false} LastStays(c: seq<nat>, removed: nat)
    requires Ascending(c) && removed < |c|
    ensures c[|c| - 1 - removed] !in Reverse(c)[..removed]
  {
  }

  lemma {:induction false} StaysListed(t: Manager, ts: seq<SSTable>, d: seq<nat>, i: nat, outs: seq<SSTable>)
    requires i < |ts| && i !in d && t.l2 == Unchosen(ts, d) + outs[..0]
    ensures ts[i].path in Paths(AllTables(t))
  {
    hide Unchosen, Paths, AllTables;
    UnchosenHas(ts, d, i);
    NotAdded(Unchosen(ts, d), outs);
    PathListed(t, L2, ts[i]);
  }

  lemma {:induction false} MetStaysListed(t: Manager, s: Manager, removed: nat, outs: seq<SSTable>)
    requires s.l1 != [] && removed < |Met(s)| && t.l2 == Unchosen(s.l2, Reverse(Met(s))[..removed]) + outs[..0]
    ensures NextGone(s, removed) in Paths(AllTables(t))
  {
    var c := Met(s);
    LastStays(c, removed);
    hide Met, Unchosen, Paths, AllTables, Reverse, Ascending;
    StaysListed(t, s.l2, Reverse(c)[..removed], c[|c| - 1 - removed], outs);
  }

  /** The table whose turn it is to go is still listed. */
  lemma {:induction false} NextGoneListed(m: Medium, s: Manager, removed: nat)
    requires ReachedL1(m, s, removed, false, 0)
    ensures NextGone(s, removed) in Paths(AllTables(MidL1(m, s, removed, false, 0)))
  {
    var t := MidL1(m, s, removed, false, 0);
    MidL1Lists(m, s, removed, false, 0);
    hide MidL1, Unchosen, NextOutput, Met, Paths, AllTables, Reverse;
    if removed < |Met(s)| {
      MetStaysListed(t, s, removed, NextOutput(m, s));
    } else {
      PathListed(t, L1, s.l1[0]);
    }
  }

  lemma {:induction false} PossibleL1(m: Medium, s: Manager, removed: nat, moved: bool, installed: nat, tear: Tear)
    requires ReachedL1(m, s, removed, moved, installed) && TearsL1(m, s, removed, moved, installed, tear)
    ensures Possible(MidL1(m, s, removed, moved, installed), tear)
  {
    hide MidL1, NextOutput, Met, Cuts, Paths, AllTables, NextGone;
    if tear.InRemoval? {
      NextGoneListed(m, s, removed);
    }
  }

  lemma {:induction false} NotAdded<T>(ts: seq<T>, added: seq<T>)
    ensures ts + added[..0] == ts
  {
  }

  lemma {:induction false} FreshL1(m: Medium, s: Manager, installed: nat)
    requires ValidMedium(m) && Durable(m, s) && s.l1 != [] && ReachedL1(m, s, |Met(s)|, true, installed)
    requires installed < |NextOutput(m, s)| && MergeFits(m, NextInput(s), true)
    ensures NewTo(m, MidL1(m, s, |Met(s)|, true, installed), NextOutput(m, s)[installed])
  {
    hide Durable, Backed, NextOutput, NextWritten, NextInput, Met, RemoveTables, InstallTables, MergeFits, ValidMedium, AllTables, Descending, NewTo, DistinctPaths;
    MetDescends(m, s, |Met(s)|);
    MidL1Ready(m, s, |Met(s)|);
    NextWrittenDurable(m, s);
    var w, d, outs := NextWritten(m, s), Reverse(Met(s))[..|Met(s)|], NextOutput(m, s);
    RemovalsKeepDurable(m, w, L2, d);
    RemovedStillBacked(m, w, L2, d, outs);
    var r := RemoveTables(w, L2, d);
    RemoveKeepsDurable(m, r, L1, 0);
    RemovedOneStillBacked(m, r, L1, 0, outs);
    NextIsFresh(m, WithoutTable(r, L1, 0), outs, installed);
  }

  lemma {:induction false} NextL1(m: Medium, s: Manager, installed: nat)
    requires s.l1 != [] && ReachedL1(m, s, |Met(s)|, true, installed) && installed < |NextOutput(m, s)|
    ensures MidL1(m, s, |Met(s)|, true, installed + 1) ==
            InstallTable(MidL1(m, s, |Met(s)|, true, installed), NextOutput(m, s)[installed])
  {
    hide NextOutput, NextWritten, Met, RemoveTables, InstallTables, InstallTable, Descending;
    MidL1Ready(m, s, |Met(s)|);
    InstallNext(WithoutTable(RemoveTables(NextWritten(m, s), L2, Reverse(Met(s))[..|Met(s)|]), L1, 0), NextOutput(m, s), installed);
  }

  lemma {:induction false} StandsAfterL1(m: Medium, s: Manager, removed: nat, moved: bool, installed: nat, tear: Tear, logged: map<string, Value>)
    requires ValidMedium(m) && Durable(m, s) && ListedBut(s, {}) && ReachedL1(m, s, removed, moved, installed)
    requires TearsL1(m, s, removed, moved, installed, tear) && FitsL1(m, s, installed, tear) && KeysLogged(NextInput(s), logged)
    ensures StandingAfter(m, s, MidL1(m, s, removed, moved, installed), tear, logged)
  {
    hide Durable, MidL1, NextOutput, NextInput, MergeFits, ValidMedium, Met, ListedBut, KeysLogged, Cuts, Standing, StandingAfter, NewTo, InstallTable;
    var mid, next := MidL1(m, s, removed, moved, installed), MidL1(m, s, removed, moved, installed);
    if IsListing(tear) {
      FreshL1(m, s, installed);
      NextL1(m, s, installed);
      next := MidL1(m, s, removed, true, installed + 1);
      MidL1Stands(m, s, removed, true, installed + 1, logged);
    }
    StandsAfter(m, s, mid, tear, next, logged);
  }

  /** The restart after a crash inside an L1 compaction. */
  ghost function AfterL1Crash(c: Setup, db: Db, removed: nat, moved: bool, installed: nat, tear: Tear): Db
    requires ReachedL1(c.medium, db.tables, removed, moved, installed) && TearsL1(c.medium, db.tables, removed, moved, installed, tear)
  {
    Restart(c, db.(tables := Left(MidL1(c.medium, db.tables, removed, moved, installed), tear)))
  }

  /** A crash inside an L1 compaction, between two writes or in the middle of a manifest line or of a checkpoint: when the
      log knows every key of the tables that are merged, and of those a torn checkpoint leaves out, scans and lookups
      answer as before. */
  lemma {:induction false} CrashInL1Compaction(c: Setup, db: Db, spec: map<string, string>, parts: seq<seq<Command>>,
                                               removed: nat, moved: bool, installed: nat, tear: Tear, strays: seq<SSTable>, key: string)
    requires ValidMedium(c.medium) && Shows(c, db, spec) && Recovers(c, db, spec, parts) && ListedBut(db.tables, {})
    requires db.tables.l1 != [] && ReachedL1(c.medium, db.tables, removed, moved, installed)
    requires TearsL1(c.medium, db.tables, removed, moved, installed, tear) && FitsL1(c.medium, db.tables, installed, tear)
    requires KeysLogged(NextInput(db.tables), Logged(parts))
    requires CutLogged(MidL1(c.medium, db.tables, removed, moved, installed), tear, Logged(parts))
    requires forall o :: o in strays ==> IsStray(AfterL1Crash(c, db, removed, moved, installed, tear).tables, o)
    ensures var r := Adopt(AfterL1Crash(c, db, removed, moved, installed, tear), strays);
            Live(RawDb(r)) == spec && Answer(Search(c.medium.hasher, r, key)) == Lookup(spec, key)
  {
    OpenedUp(c, db, spec, parts);
    var m, s, logged := c.medium, db.tables, Logged(parts);
    var mid := MidL1(m, s, removed, moved, installed);
    hide Shows, Recovers, Durable, ValidLevels, ListedBut, MidL1, MergeFits, KeysLogged, ValidMedium, ReachedL1, Survivable, Logged, IsStray,
         HoldsLog, StandingAfter, Standing, CutLogged, Cuts, Possible, Left, Reopened, NextInput;
    PossibleL1(m, s, removed, moved, installed, tear);
    MidL1Stands(m, s, removed, moved, installed, logged);
    StandsAfterL1(m, s, removed, moved, installed, tear, logged);
    TearSurvives(m, s, mid, tear, logged);
    CrashServes(c, db, spec, parts, Left(mid, tear), strays, key);
  }

  /** What is merged, counted through all tables from the oldest. */
  function Merging(s: Manager): (c: seq<nat>)
    requires s.l1 != []
    ensures Distinct(c) && InRange(ByAge(s), c)
  {
    Met(s) + [|s.l2|]
  }

  /** What is gone, counted the same way. */
  function Gone(s: Manager, removed: nat, moved: bool): seq<nat>
    requires s.l1 != [] && removed <= |Met(s)|
  {
    Reverse(Met(s))[..removed] + if moved then [|s.l2|] else []
  }

  /** The keys that are done with: listed again in a new table, or dropped as tombstones, when all that is merged is gone. */
  ghost function Done(m: Medium, s: Manager, moved: bool, installed: nat): set<string>
    requires s.l1 != [] && installed <= |NextOutput(m, s)|
  {
    var merged, listed := Overlay(Stack(NextInput(s))), Overlay(Stack(NextOutput(m, s)[..installed]));
    set k | k in merged && moved && (merged[k].Tombstone? || k in listed)
  }

  /** The raw map at a crash point, with contents `ts` in all tables and the same keys done with. */
  ghost function RawL1(m: Medium, s: Manager, removed: nat, moved: bool, installed: nat, ts: seq<seq<Record>>): map<string, Value>
    requires ReachedL1(m, s, removed, moved, installed) && InRange(ts, Merging(s))
  {
    Relisted(map[], ts, Merging(s), Gone(s, removed, moved), Done(m, s, moved, installed))
  }

  /** No table of L2 that stays has a key that is merged. */
  lemma {:induction false} UnmetLacks(m: Medium, s: Manager, k: string)
    requires ValidLevels(m, s) && s.l1 != [] && k in Overlay(Stack(NextInput(s)))
    ensures k !in Overlay(Unchosen(Stack(s.l2), Met(s)))
  {
    hide Overlay, Unchosen, BottomLevel, ValidTable, RecordsOf;
    StackConcat(Pick(s.l2, Met(s)), [s.l1[0]]);
    assert Stack([s.l1[0]]) == [RecordsOf(s.l1[0])];
    hide OverlapIndices;
    if k in Overlay(Unchosen(Stack(s.l2), Met(s))) {
      KeptIsOutside(m.hasher, s.l2, s.l1[0], k);
    }
  }

  lemma {:induction false} MergingIsInput(s: Manager)
    requires s.l1 != []
    ensures Pick(ByAge(s), Merging(s)) == Stack(NextInput(s))
  {
    hide RecordsOf, OverlapIndices;
    var c := Met(s);
    forall p | 0 <= p < |c|
      ensures ByAge(s)[c[p]] == RecordsOf(s.l2[c[p]])
    {
    }
    assert ByAge(s)[|s.l2|] == RecordsOf(s.l1[0]);
  }

  lemma {:induction false} GoneParts(s: Manager, removed: nat, moved: bool)
    requires s.l1 != [] && removed <= |Met(s)|
    ensures Gone(s, removed, moved) ==
            Reverse(Met(s))[..removed] + Raised(if moved then [0] else [], |s.l2|) + Raised([], |s.l2| + |s.l1|)
    ensures Below(Reverse(Met(s))[..removed], |s.l2|) && Below(if moved then [0] else [], |s.l1|)
  {
    ReverseSameSet(Met(s));
    hide Met;
    assert Raised([0], |s.l2|) == [|s.l2|] && Raised([], |s.l2|) == [] && Raised([], |s.l2| + |s.l1|) == [];
    forall i | i in Reverse(Met(s))[..removed]
      ensures i < |s.l2|
    {
      assert i in Met(s);
    }
  }

  lemma {:induction false} WithoutFirst<T>(ts: seq<T>)
    requires ts != []
    ensures Unchosen(ts, [0]) == ts[1..]
  {
    if |ts| > 1 {
      var n := |ts| - 1;
      WithoutFirst(ts[..n]);
      assert ts[..n][1..] + [ts[n]] == ts[1..];
    }
  }

  lemma {:induction false} StayingL1(s: Manager, removed: nat, moved: bool)
    requires s.l1 != [] && removed <= |Met(s)|
    ensures Overlay(Unchosen(ByAge(s), Gone(s, removed, moved))) ==
            Overlay(Unchosen(Stack(s.l2), Reverse(Met(s))[..removed]))
            + Overlay(Stack(if moved then s.l1[1..] else s.l1)) + Overlay(Stack(s.l0))
  {
    hide Overlay, Met, Gone, Raised, Below, RecordsOf;
    GoneParts(s, removed, moved);
    ThreeUnchosen(Stack(s.l2), Stack(s.l1), Stack(s.l0), Reverse(Met(s))[..removed], if moved then [0] else [], []);
    assert |Stack(s.l1)| > 0;
    WithoutFirst(Stack(s.l1));
    UnchosenNone(Stack(s.l1));
    UnchosenNone(Stack(s.l0));
    StackTail(s.l1);
  }

  lemma {:induction false} StackTail(ts: seq<SSTable>)
    requires ts != []
    ensures Stack(ts[1..]) == Stack(ts)[1..]
  {
    hide RecordsOf;
  }

  lemma {:induction false} MidL1Raw(m: Medium, s: Manager, removed: nat, moved: bool, installed: nat)
    requires ReachedL1(m, s, removed, moved, installed)
    ensures Raw(MidL1(m, s, removed, moved, installed)) ==
            Overlay(Unchosen(Stack(s.l2), Reverse(Met(s))[..removed])) + Overlay(Stack(NextOutput(m, s)[..installed]))
            + Overlay(Stack(if moved then s.l1[1..] else s.l1)) + Overlay(Stack(s.l0))
  {
    hide Overlay, Stack, Met, NextOutput, MidL1, Unchosen;
    var d, outs := Reverse(Met(s))[..removed], NextOutput(m, s)[..installed];
    MidL1Lists(m, s, removed, moved, installed);
    StackUnchosen(s.l2, d);
    StackConcat(Unchosen(s.l2, d), outs);
    OverlayConcat(Stack(Unchosen(s.l2, d)), Stack(outs));
  }

  /** What is listed again is what the merge makes of the key. */
  lemma {:induction false} ListedAgain(m: Medium, s: Manager, installed: nat, k: string)
    requires ValidMedium(m) && s.l1 != [] && installed <= |NextOutput(m, s)|
    requires k in Overlay(Stack(NextOutput(m, s)[..installed]))
    ensures var merged := Overlay(Stack(NextInput(s)));
            k in merged && merged[k].Data? && Overlay(Stack(NextOutput(m, s)[..installed]))[k] == merged[k]
  {
    hide Overlay, Stack, Met, NextOutput, NextInput;
    NextOutputFacts(m, s);
    PrefixRestricts(m.hasher, NextOutput(m, s), installed);
  }

  lemma {:induction false} UnmetGone(m: Medium, s: Manager, k: string)
    requires ValidLevels(m, s) && s.l1 != [] && k in Overlay(Stack(NextInput(s)))
    ensures k !in Overlay(Unchosen(Stack(s.l2), Reverse(Met(s))[..|Met(s)|]))
  {
    hide Overlay, Stack, Met, NextInput, Unchosen, ValidLevels;
    UnmetLacks(m, s, k);
    ReverseSameSet(Met(s));
    TakeAll(Reverse(Met(s)));
    UnchosenSameSet(Stack(s.l2), Reverse(Met(s)), Met(s));
  }

  /** What the levels answer at a crash point is what `RawL1` does. */
  lemma {:induction false} MidL1Answers(m: Medium, s: Manager, removed: nat, moved: bool, installed: nat, k: string)
    requires ValidMedium(m) && ValidLevels(m, s) && ReachedL1(m, s, removed, moved, installed)
    ensures Answer(Lookup(Raw(MidL1(m, s, removed, moved, installed)), k)) ==
            Answer(Lookup(RawL1(m, s, removed, moved, installed, ByAge(s)), k))
  {
    hide Overlay, Stack, Met, NextInput, NextOutput, MidL1, Merging, Gone, Raw, ByAge, Unchosen, Pick, ValidLevels, ValidMedium;
    MidL1Raw(m, s, removed, moved, installed);
    StayingL1(s, removed, moved);
    MergingIsInput(s);
    NoneListed(m, s);
    if k in Overlay(Stack(NextOutput(m, s)[..installed])) {
      ListedAgain(m, s, installed, k);
      UnmetGone(m, s, k);
    }
    if moved && k in Overlay(Stack(NextInput(s))) {
      UnmetGone(m, s, k);
    }
  }

  lemma {:induction false} NoneListed(m: Medium, s: Manager)
    requires s.l1 != []
    ensures Overlay(Stack(NextOutput(m, s)[..0])) == map[]
  {
    hide NextOutput;
    assert Stack(NextOutput(m, s)[..0]) == [];
  }

  /** Every key but the empty one that the log does not know, and whose newest record lies in a table that is gone, is done
      with. */
  ghost predicate KeptL1(m: Medium, s: Manager, removed: nat, moved: bool, installed: nat, logged: map<string, Value>)
    requires ReachedL1(m, s, removed, moved, installed)
  {
    forall i, k :: i in Gone(s, removed, moved) && Newest(ByAge(s), i, k) && k != "" && k !in logged ==>
      k in Done(m, s, moved, installed)
  }

  lemma {:induction false} MergingHas(s: Manager, i: nat, k: string)
    requires s.l1 != [] && i in Merging(s) && HasKey(ByAge(s)[i], k)
    ensures k in Overlay(Stack(NextInput(s)))
  {
    MergingIsInput(s);
    var c := Merging(s);
    hide Merging, Stack, NextInput, ByAge, Overlay, Pick, Contents;
    var p :| 0 <= p < |c| && c[p] == i;
    OverlayKeys(Pick(ByAge(s), c), p, k);
  }

  lemma {:induction false} MergingRange(s: Manager)
    requires s.l1 != []
    ensures forall p, q :: 0 <= p < q < |Merging(s)| ==> Merging(s)[p] < Merging(s)[q]
    ensures forall i :: i in Merging(s) <==> i in Met(s) || i == |s.l2|
    ensures forall i :: i in Merging(s) ==> i <= |s.l2|
    ensures forall i :: 0 <= i < |s.l2| ==> ByAge(s)[i] == Stack(s.l2)[i]
  {
    hide OverlapIndices, Stack;
    forall i | i in Met(s)
      ensures i < |s.l2|
    {
    }
  }

  /** No table that stays holds an older record of a merged key. */
  lemma {:induction false} NoneOutside(m: Medium, s: Manager, k: string)
    requires ValidLevels(m, s) && s.l1 != [] && k in Overlay(Stack(NextInput(s)))
    ensures forall j :: 0 <= j < |s.l2| && j !in Met(s) ==> !HasKey(Stack(s.l2)[j], k)
  {
    UnmetLacks(m, s, k);
    hide Met, Stack, NextInput, Overlay, Unchosen, ValidLevels, Contents;
    forall j | 0 <= j < |s.l2| && j !in Met(s)
      ensures !HasKey(Stack(s.l2)[j], k)
    {
      if HasKey(Stack(s.l2)[j], k) {
        var l := NewestLeft(Stack(s.l2), Met(s), k, j);
        UnchosenDecides(Stack(s.l2), Met(s), l, k);
      }
    }
  }

  /** No merged record is overtaken: the tables are merged in the order of their age, and no other table of L2 shares a key
      with them. */
  lemma {:induction false} NeverOvertaken(m: Medium, s: Manager, p: nat, k: string)
    requires ValidLevels(m, s) && s.l1 != [] && p < |Merging(s)| && Newest(ByAge(s), Merging(s)[p], k)
    ensures !Overtaken(ByAge(s), Merging(s), p, k)
  {
    var c, ts := Merging(s), ByAge(s);
    assert c[p] in c;
    MergingHas(s, c[p], k);
    MergingRange(s);
    NoneOutside(m, s, k);
    hide Merging, ByAge, Met, Stack, NextInput, Overlay, ValidLevels, HasKey, Newest, Overtaken;
    forall j | 0 <= j < c[p] && j !in c
      ensures !HasKey(ts[j], k)
    {
    }
    NotOvertaken(ts, c, p, k);
  }

  lemma {:induction false} GoingL1(m: Medium, s: Manager, removed: nat, moved: bool, installed: nat)
    requires ReachedL1(m, s, removed, moved, installed)
    ensures Going(Merging(s), Gone(s, removed, moved), Done(m, s, moved, installed))
  {
    ReverseSameSet(Met(s));
    TakeAll(Reverse(Met(s)));
    hide Met, NextOutput, NextInput, Overlay, Stack;
    var d := Reverse(Met(s));
    assert forall i :: i in d[..removed] ==> i in d;
  }

  lemma {:induction false} KeptIsRelisted(m: Medium, s: Manager, removed: nat, moved: bool, installed: nat, logged: map<string, Value>)
    requires ValidLevels(m, s) && ReachedL1(m, s, removed, moved, installed)
    ensures KeptL1(m, s, removed, moved, installed, logged) <==>
            NewestRelisted(ByAge(s), Merging(s), Gone(s, removed, moved), Done(m, s, moved, installed), logged.Keys)
  {
    GoingL1(m, s, removed, moved, installed);
    var c, out := Merging(s), Gone(s, removed, moved);
    assert s.l1 != [];
    hide Merging, Gone, Done, ByAge, ValidLevels, ReachedL1, Newest, Overtaken;
    forall p, k | 0 <= p < |c| && Newest(ByAge(s), c[p], k)
      ensures !Overtaken(ByAge(s), c, p, k)
    {
      NeverOvertaken(m, s, p, k);
    }
    forall i | i in out
      ensures exists p :: 0 <= p < |c| && c[p] == i
    {
      assert i in c;
    }
  }

  /** The exact condition at every crash point: for every content the tables may have with their keys, a reader sees no
      difference for any key but the empty one that the log does not know, if and only if `KeptL1` holds. */
  lemma {:induction false} L1CrashExactly(m: Medium, s: Manager, removed: nat, moved: bool, installed: nat, logged: map<string, Value>)
    requires ValidMedium(m) && ValidLevels(m, s) && ReachedL1(m, s, removed, moved, installed)
    ensures Raw(s) == Overlay(ByAge(s))
    ensures KeptL1(m, s, removed, moved, installed, logged) <==>
            forall us: seq<seq<Record>> :: SameKeys(ByAge(s), us) ==>
              Agree(RawL1(m, s, removed, moved, installed, us), Overlay(us), logged.Keys)
  {
    ByAgeIsRaw(s);
    ByAgeSorted(m, s);
    GoingL1(m, s, removed, moved, installed);
    KeptIsRelisted(m, s, removed, moved, installed, logged);
    hide Relisted, Done, Overlay, Merging, Gone, Going, NewestRelisted, Agree, ByAge, ValidLevels, ValidMedium, Stack, Raw, KeptL1, Sorted, ReachedL1;
    RelistedAlone(ByAge(s), Merging(s), Gone(s, removed, moved), Done(m, s, moved, installed), logged.Keys);
  }

  lemma {:induction false} DoneAnswers(m: Medium, s: Manager, removed: nat, moved: bool, installed: nat, logged: map<string, Value>, key: string)
    requires ValidMedium(m) && ValidLevels(m, s) && ReachedL1(m, s, removed, moved, installed)
    requires KeptL1(m, s, removed, moved, installed, logged) && key != "" && key !in logged
    ensures Lookup(RawL1(m, s, removed, moved, installed, ByAge(s)), key) == Lookup(Raw(s), key)
  {
    ByAgeIsRaw(s);
    GoingL1(m, s, removed, moved, installed);
    KeptIsRelisted(m, s, removed, moved, installed, logged);
    hide Relisted, Done, Overlay, Merging, Gone, Going, NewestRelisted, ByAge, ValidLevels, ValidMedium, Raw, KeptL1, ReachedL1;
    RelistedAgrees(map[], ByAge(s), Merging(s), Gone(s, removed, moved), Done(m, s, moved, installed), logged.Keys, key);
    NothingUnder(Overlay(ByAge(s)));
  }

  /** The levels a restart finds at a crash point. */
  lemma {:induction false} FoundL1(m: Medium, s: Manager, removed: nat, moved: bool, installed: nat, key: string)
    requires ValidMedium(m) && Durable(m, s) && ValidLevels(m, s) && ReachedL1(m, s, removed, moved, installed)
    requires s.l1 != [] && (installed > 0 ==> MergeFits(m, NextInput(s), true))
    ensures var found := Reopened(MidL1(m, s, removed, moved, installed));
            ValidLists(m.hasher, found)
            && Answer(Lookup(Raw(found), key)) == Answer(Lookup(RawL1(m, s, removed, moved, installed, ByAge(s)), key))
  {
    hide Durable, Reopened, MidL1, ReachedL1, Raw, RawL1, ValidLists, ValidLevels, MergeFits, ValidMedium, NextInput, ByAge, Merging;
    MidL1Durable(m, s, removed, moved, installed);
    ReopenedLists(m, MidL1(m, s, removed, moved, installed));
    MidL1Answers(m, s, removed, moved, installed, key);
  }

  /** The restart at a crash point between two writes. */
  ghost function AfterL1(c: Setup, db: Db, removed: nat, moved: bool, installed: nat): Db
    requires ReachedL1(c.medium, db.tables, removed, moved, installed)
  {
    Restart(c, db.(tables := MidL1(c.medium, db.tables, removed, moved, installed)))
  }

  /** What a lookup is told after the restart, whatever unlisted files start-up picks up: the log's word if it knows the
      key, else that of the levels as the compaction left them. With `KeptL1` that is the answer before the crash. */
  lemma {:induction false} L1CrashAnswers(c: Setup, db: Db, spec: map<string, string>, parts: seq<seq<Command>>,
                                          removed: nat, moved: bool, installed: nat, strays: seq<SSTable>, key: string)
    requires ValidMedium(c.medium) && Shows(c, db, spec) && Recovers(c, db, spec, parts) && key != ""
    requires db.tables.l1 != [] && ReachedL1(c.medium, db.tables, removed, moved, installed)
    requires installed > 0 ==> MergeFits(c.medium, NextInput(db.tables), true)
    requires forall o :: o in strays ==> IsStray(AfterL1(c, db, removed, moved, installed).tables, o)
    ensures var answer := Answer(Search(c.medium.hasher, Adopt(AfterL1(c, db, removed, moved, installed), strays), key));
            && answer == (if key in Logged(parts) then Lookup(spec, key)
                          else Answer(Lookup(RawL1(c.medium, db.tables, removed, moved, installed, ByAge(db.tables)), key)))
            && (KeptL1(c.medium, db.tables, removed, moved, installed, Logged(parts)) ==> answer == Lookup(spec, key))
  {
    OpenedUp(c, db, spec, parts);
    var m, s, logged := c.medium, db.tables, Logged(parts);
    hide Shows, Recovers, Durable, ValidLevels, MidL1, MergeFits, ValidMedium, ReachedL1, Logged, IsStray, HoldsLog, Reopened, Raw, RawL1, Search,
         ValidLists, NextInput, KeptL1, ByAge, Merging;
    FoundL1(m, s, removed, moved, installed, key);
    RestartAnswers(c, db, spec, parts, MidL1(m, s, removed, moved, installed), strays, key);
    if key !in logged && KeptL1(m, s, removed, moved, installed, logged) {
      UnloggedAnswer(c, db, spec, parts, key);
      DoneAnswers(m, s, removed, moved, installed, logged, key);
    }
  }
}
