/** What a restart answers over whatever files a crash left: the log decides for the keys it knows, the levels it finds
    for the others, and files it finds unlisted for none but the empty key. */
module CrashAnswers {
  import opened Seqs
  import opened SortedMap
  import opened Records
  import opened Commands
  import opened WriteAheadLog
  import opened BloomFilters
  import opened TableBuilder
  import opened Selection
  import opened Leveling
  import opened Manifests
  import opened ManagerState
  import opened Durability
  import opened Compactions
  import opened EngineState
  import opened Lookups
  import opened Recovery
  import opened Strays

  /** A file that start-up picks up because no level lists it. Its key range is taken from the part of the index
      that reads back empty. */
  ghost predicate IsStray(s: Manager, t: SSTable) {
    && t.path in s.disk && t.path !in Paths(AllTables(s))
    && t.blocks == s.disk[t.path].blocks && t.bloom == s.disk[t.path].bloom
    && t.level == L0 && t.minKey == "" && t.maxKey == ""
  }

  /** Strays are put behind the tables of L0, in the order in which the directory is read. */
  function Adopt(db: Db, strays: seq<SSTable>): Db {
    db.(tables := db.tables.(l0 := db.tables.l0 + strays))
  }

  /** A point lookup: the memtable, then the first candidate table that has the key. */
  function Search(h: Hasher, db: Db, key: string): Option<Value> {
    var r := Find(db.memtable, key);
    if r.Some? then r else FirstHit(AllCandidates(h, db.tables, key), key)
  }

  /** Every listed table is sorted, not empty, ranged by its first and last key, and filtered soundly. */
  ghost predicate ValidLists(h: Hasher, s: Manager) {
    AllValid(h, s.l0) && AllValid(h, s.l1) && AllValid(h, s.l2)
  }

  lemma {:induction false} ListsDecide(h: Hasher, s: Manager, key: string)
    requires ValidLists(h, s)
    ensures FirstHit(AllCandidates(h, s, key), key) == Lookup(Raw(s), key)
  {
    hide Overlay, ValidTable, Candidates, FirstHit;
    CandidatesDecide(h, s.l0, key);
    CandidatesDecide(h, s.l1, key);
    CandidatesDecide(h, s.l2, key);
    FirstHitConcat(Candidates(h, s.l0, key) + Candidates(h, s.l1, key), Candidates(h, s.l2, key), key);
    FirstHitConcat(Candidates(h, s.l0, key), Candidates(h, s.l1, key), key);
  }

  lemma {:induction false} SearchDecides(h: Hasher, db: Db, key: string)
    requires ValidLists(h, db.tables) && Sorted(db.memtable)
    ensures Search(h, db, key) == Lookup(RawDb(db), key)
  {
    FindIsLookup(db.memtable, key);
    hide Raw, AllCandidates, FirstHit, ValidLists;
    ListsDecide(h, db.tables, key);
  }

  lemma {:induction false} CandidatesConcat(h: Hasher, a: seq<SSTable>, b: seq<SSTable>, key: string)
    ensures Candidates(h, a + b, key) == Candidates(h, b, key) + Candidates(h, a, key)
  {
    hide ContainsKeyRange, Holds;
    if b == [] {
      ConcatNothing(a);
      assert [] + Candidates(h, a, key) == Candidates(h, a, key);
    } else {
      var n := |b| - 1;
      CandidatesConcat(h, a, b[..n], key);
      assert (a + b)[..|a + b| - 1] == a + b[..n] && (a + b)[|a + b| - 1] == b[n];
      ConcatAssociates(if ContainsKeyRange(b[n], key) && Holds(h, b[n].bloom, key) then [b[n]] else [],
                       Candidates(h, b[..n], key), Candidates(h, a, key));
    }
  }

  lemma {:induction false} ListedInContents(es: seq<Record>, i: nat)
    requires i < |es|
    ensures es[i].key in Contents(es)
  {
    if i < |es| - 1 {
      ListedInContents(es[..|es| - 1], i);
    }
  }

  lemma {:induction false} NothingFound(es: seq<Record>, key: string)
    requires forall i :: 0 <= i < |es| ==> es[i].key != key
    ensures Find(es, key) == None
  {
    if es != [] {
      NothingFound(es[1..], key);
    }
  }

  lemma {:induction false} AbsentNotFound(es: seq<Record>, key: string)
    requires !HasKey(es, key)
    ensures Find(es, key) == None
  {
    forall i | 0 <= i < |es|
      ensures es[i].key != key
    {
      ListedInContents(es, i);
    }
    NothingFound(es, key);
  }

  /** A lookup finds nothing in tables that lack the key. */
  lemma {:induction false} NoHit(h: Hasher, ts: seq<SSTable>, key: string)
    requires forall t :: t in ts ==> !HasKey(RecordsOf(t), key)
    ensures FirstHit(Candidates(h, ts, key), key) == None
  {
    if ts != [] {
      var n := |ts| - 1;
      var t := ts[n];
      InitLast(ts);
      NoHit(h, ts[..n], key);
      assert t in ts;
      AbsentNotFound(RecordsOf(t), key);
      hide ContainsKeyRange, Holds, RecordsOf, Contents, Find;
      if ContainsKeyRange(t, key) && Holds(h, t.bloom, key) {
        FirstHitConcat([t], Candidates(h, ts[..n], key), key);
        FirstHitOne(t, key);
      } else {
        assert [] + Candidates(h, ts[..n], key) == Candidates(h, ts[..n], key);
      }
    }
  }

  /** No lookup but that of the empty key looks into a stray. */
  lemma {:induction false} StraysPassedOver(h: Hasher, ts: seq<SSTable>, key: string)
    requires key != "" && forall t :: t in ts ==> t.minKey == "" && t.maxKey == ""
    ensures Candidates(h, ts, key) == []
  {
    hide Holds;
    if ts != [] {
      var n := |ts| - 1;
      InitLast(ts);
      StraysPassedOver(h, ts[..n], key);
      assert ts[n] in ts;
    }
  }

  /** Strays in which a lookup finds nothing do not change its answer. */
  lemma {:induction false} AdoptedSearch(h: Hasher, db: Db, strays: seq<SSTable>, key: string)
    requires FirstHit(Candidates(h, strays, key), key) == None
    ensures Search(h, Adopt(db, strays), key) == Search(h, db, key)
  {
    hide Candidates, FirstHit, Find;
    var s := db.tables;
    CandidatesConcat(h, s.l0, strays, key);
    var a, b, c, d := Candidates(h, strays, key), Candidates(h, s.l0, key), Candidates(h, s.l1, key), Candidates(h, s.l2, key);
    FirstHitConcat(a, b + c + d, key);
    ConcatAssociates(a + b, c, d);
    ConcatAssociates(a, b, c + d);
    ConcatAssociates(b, c, d);
  }

  lemma {:induction false} StrayRanges(s: Manager, strays: seq<SSTable>)
    requires forall o :: o in strays ==> IsStray(s, o)
    ensures forall o :: o in strays ==> o.minKey == "" && o.maxKey == ""
  {
  }

  /** What a reader makes of the raw map. */
  lemma {:induction false} AnswerIsLive(m: map<string, Value>, key: string)
    ensures Answer(Lookup(m, key)) == Lookup(Live(m), key)
  {
  }

  /** Strays whose keys the memtable knows change nothing that is visible. */
  lemma {:induction false} AdoptedShows(h: Hasher, db: Db, strays: seq<SSTable>, key: string)
    requires ValidLists(h, db.tables) && Sorted(db.memtable)
    requires forall t, k :: t in strays && HasKey(RecordsOf(t), k) ==> k in Contents(db.memtable)
    ensures RawDb(Adopt(db, strays)) == RawDb(db)
    ensures Answer(Search(h, Adopt(db, strays), key)) == Lookup(Live(RawDb(db)), key)
  {
    AdoptedRaw(db, strays);
    SearchDecides(h, db, key);
    AnswerIsLive(RawDb(db), key);
    FindIsLookup(db.memtable, key);
    hide Find, FirstHit, AllCandidates, HasKey, Contents, RecordsOf, Raw, Live, ValidLists;
    if key !in Contents(db.memtable) {
      assert forall t :: t in strays ==> !HasKey(RecordsOf(t), key);
      NoHit(h, strays, key);
      AdoptedSearch(h, db, strays, key);
    }
  }

  lemma {:induction false} AdoptedRaw(db: Db, strays: seq<SSTable>)
    requires forall t, k :: t in strays && HasKey(RecordsOf(t), k) ==> k in Contents(db.memtable)
    ensures RawDb(Adopt(db, strays)) == RawDb(db)
  {
    hide Contents, RecordsOf;
    var s, x := db.tables, Overlay(Stack(strays));
    StackConcat(s.l0, strays);
    OverlayConcat(Stack(s.l0), Stack(strays));
    forall k | k in x
      ensures k in Contents(db.memtable)
    {
      var i := OverlayOrigin(Stack(strays), k);
      assert strays[i] in strays;
    }
    hide Overlay;
    Covered(Overlay(Stack(s.l2)) + Overlay(Stack(s.l1)), Overlay(Stack(s.l0)), x, Contents(db.memtable));
  }

  lemma {:induction false} Covered(a: map<string, Value>, b: map<string, Value>, x: map<string, Value>, top: map<string, Value>)
    requires forall k :: k in x ==> k in top
    ensures a + (b + x) + top == a + b + top
  {
  }

  /** Two managers show the same for every key the log does not know. */
  ghost predicate SameUnlogged(s: Manager, t: Manager, logged: map<string, Value>) {
    forall k :: k !in logged ==> Lookup(Raw(t), k) == Lookup(Raw(s), k)
  }

  /** The log knows every key of the unlisted files. */
  ghost predicate StraysLogged(s: Manager, logged: map<string, Value>) {
    forall t, k :: IsStray(s, t) && HasKey(RecordsOf(t), k) ==> k in logged
  }

  /** The levels a restart finds in place of those of `s`: sound, and different only for logged keys. */
  ghost predicate Survivable(m: Medium, s: Manager, found: Manager, logged: map<string, Value>) {
    ValidLists(m.hasher, found) && SameUnlogged(s, found, logged) && StraysLogged(found, logged)
  }

  lemma {:induction false} LoggedHides(a: map<string, Value>, b: map<string, Value>, logged: map<string, Value>)
    requires forall k :: k !in logged ==> Lookup(a, k) == Lookup(b, k)
    ensures Live(a + logged) == Live(b + logged)
  {
    forall k | k !in logged
      ensures (k in a <==> k in b) && (k in a ==> a[k] == b[k])
    {
      assert Lookup(a, k) == Lookup(b, k);
    }
    assert a + logged == b + logged;
  }

  /** What a restart loads: the logged map, and the levels of the manifest. */
  lemma {:induction false} RestartLoads(c: Setup, db: Db, parts: seq<seq<Command>>)
    requires HoldsLog(c.crc, db.wal, parts)
    ensures var r := Restart(c, db);
            Contents(r.memtable) == Logged(parts) && Sorted(r.memtable) && r.tables == Reopened(db.tables)
  {
    hide HoldsLog, LoadAll, OpenLog, Joined, Replayed, Contents, Replay;
    var parts' := ReopenHolds(c.crc, db.wal, parts);
    LoadExact(c.crc, OpenLog(db.wal.segments), parts');
    ReplayedSorted(Joined(parts'));
  }

  lemma {:induction false} OpenedUp(c: Setup, db: Db, spec: map<string, string>, parts: seq<seq<Command>>)
    requires Shows(c, db, spec) && Recovers(c, db, spec, parts)
    ensures ValidLevels(c.medium, db.tables) && Durable(c.medium, db.tables) && HoldsLog(c.crc, db.wal, parts)
  {
  }

  /** The map before the crash, by log and levels. */
  lemma {:induction false} SpecByLog(c: Setup, db: Db, spec: map<string, string>, parts: seq<seq<Command>>)
    requires Shows(c, db, spec) && Recovers(c, db, spec, parts)
    ensures spec == Live(Raw(db.tables) + Logged(parts))
  {
    hide Durable, HoldsLog, ValidLevels, Raw, Contents, Logged;
    LoggedDecides(Raw(db.tables), Contents(db.memtable), Logged(parts));
  }

  /** The restart over the files `t`, with the strays it adopts, whichever of them can be read and in whatever order:
      scans and lookups answer as before the crash. */
  lemma {:induction false} CrashServes(c: Setup, db: Db, spec: map<string, string>, parts: seq<seq<Command>>,
                                       t: Manager, strays: seq<SSTable>, key: string)
    requires Shows(c, db, spec) && Recovers(c, db, spec, parts)
    requires Survivable(c.medium, db.tables, Reopened(t), Logged(parts))
    requires forall o :: o in strays ==> IsStray(Reopened(t), o)
    ensures var r := Adopt(Restart(c, db.(tables := t)), strays);
            Live(RawDb(r)) == spec && Answer(Search(c.medium.hasher, r, key)) == Lookup(spec, key)
  {
    OpenedUp(c, db, spec, parts);
    SpecByLog(c, db, spec, parts);
    RestartLoads(c, db.(tables := t), parts);
    LoggedHides(Raw(db.tables), Raw(Reopened(t)), Logged(parts));
    hide Shows, Recovers, Restart, Durable, ValidLevels, HoldsLog, Logged, Contents, RecordsOf, IsStray, Reopened, ValidLists, Raw, Live, Sorted;
    AdoptedShows(c.medium.hasher, Restart(c, db.(tables := t)), strays, key);
  }

  /** What it answers for a key, strays or not: the log's word for a key it knows, else that of the levels found. */
  lemma {:induction false} RestartAnswers(c: Setup, db: Db, spec: map<string, string>, parts: seq<seq<Command>>,
                                        t: Manager, strays: seq<SSTable>, key: string)
    requires Shows(c, db, spec) && Recovers(c, db, spec, parts) && key != ""
    requires ValidLists(c.medium.hasher, Reopened(t)) && forall o :: o in strays ==> IsStray(Reopened(t), o)
    ensures Answer(Search(c.medium.hasher, Adopt(Restart(c, db.(tables := t)), strays), key)) ==
            if key in Logged(parts) then Lookup(spec, key) else Answer(Lookup(Raw(Reopened(t)), key))
  {
    var h, r := c.medium.hasher, Restart(c, db.(tables := t));
    OpenedUp(c, db, spec, parts);
    RestartLoads(c, db.(tables := t), parts);
    StrayRanges(Reopened(t), strays);
    hide Shows, Restart, Durable, ValidLevels, HoldsLog, Logged, Contents, IsStray, Reopened, ValidLists, Raw, Sorted, Search, Candidates, CleanLogged;
    StraysPassedOver(h, strays, key);
    AdoptedSearch(h, r, strays, key);
    SearchDecides(h, r, key);
    if key in Logged(parts) {
      assert Lookup(spec, key) == Seen(Logged(parts)[key]);
    }
  }

  /** What was answered before, for a key the log does not know. */
  lemma {:induction false} UnloggedAnswer(c: Setup, db: Db, spec: map<string, string>, parts: seq<seq<Command>>, key: string)
    requires Shows(c, db, spec) && Recovers(c, db, spec, parts) && key !in Logged(parts)
    ensures Lookup(spec, key) == Answer(Lookup(Raw(db.tables), key))
  {
    SpecByLog(c, db, spec, parts);
    hide Shows, Recovers, Logged, Raw;
  }

  /** A reload of a durable manager finds its lists: valid, with the same raw map. */
  lemma {:induction false} ReopenedLists(m: Medium, s: Manager)
    requires Durable(m, s)
    ensures ValidLists(m.hasher, Reopened(s)) && Raw(Reopened(s)) == Raw(s)
  {
    ReopenedLevels(m, s);
    ReloadedExact(m, s.disk, s.l0);
    ReloadedExact(m, s.disk, s.l1);
    ReloadedExact(m, s.disk, s.l2);
    hide Reopened, Reloaded, Durable, Backed, AllValid;
  }

  /** A reload makes no file a stray that was none. */
  lemma {:induction false} ReopenedStray(m: Medium, s: Manager, t: SSTable)
    requires Durable(m, s) && IsStray(Reopened(s), t)
    ensures IsStray(s, t)
  {
    ReopenedDisk(s);
    hide Reopened, Durable;
    ReopenedPaths(m, s);
  }

  lemma {:induction false} ReopenedPaths(m: Medium, s: Manager)
    requires Durable(m, s)
    ensures Paths(AllTables(Reopened(s))) == Paths(AllTables(s))
  {
    ReopenedLevels(m, s);
    hide Paths, Reopened, Durable, Backed, Reloaded;
    SamePathSets(m, s.disk, s.l0);
    SamePathSets(m, s.disk, s.l1);
    SamePathSets(m, s.disk, s.l2);
    PathsOfLevels(s);
    PathsOfLevels(Reopened(s));
  }

  /** Files that rebuild a manager which differs only for logged keys. */
  lemma {:induction false} DurableSurvives(m: Medium, s: Manager, t: Manager, logged: map<string, Value>)
    requires Durable(m, t) && SameUnlogged(s, t, logged) && StraysLogged(t, logged)
    ensures Survivable(m, s, Reopened(t), logged)
  {
    hide Durable, Reopened, Raw, ValidLists;
    ReopenedLists(m, t);
    forall o, k | IsStray(Reopened(t), o) && HasKey(RecordsOf(o), k)
      ensures k in logged
    {
      ReopenedStray(m, t, o);
      assert IsStray(t, o) && HasKey(RecordsOf(o), k);
    }
  }

  /** The same tables but for the sizes kept for them. */
  ghost predicate Alike(a: seq<SSTable>, b: seq<SSTable>) {
    |a| == |b| && forall i :: 0 <= i < |a| ==> a[i] == b[i].(fileSize := a[i].fileSize)
  }

  ghost predicate AlikeManagers(s: Manager, t: Manager) {
    Alike(s.l0, t.l0) && Alike(s.l1, t.l1) && Alike(s.l2, t.l2) && s.disk == t.disk
  }

  lemma {:induction false} AlikeTables(h: Hasher, a: seq<SSTable>, b: seq<SSTable>)
    requires Alike(a, b)
    ensures Stack(a) == Stack(b) && (AllValid(h, a) <==> AllValid(h, b)) && Paths(a) == Paths(b)
  {
    PathsWithin(a, b);
    PathsWithin(b, a);
    assert forall i :: 0 <= i < |a| ==> SameBut(h, a[i], b[i]);
  }

  /** What does not depend on the size. */
  ghost predicate SameBut(h: Hasher, a: SSTable, b: SSTable) {
    a == b.(fileSize := a.fileSize) && RecordsOf(a) == RecordsOf(b) && (ValidTable(h, a) <==> ValidTable(h, b))
  }

  lemma {:induction false} AlikeSurvives(m: Medium, s: Manager, found: Manager, like: Manager, logged: map<string, Value>)
    requires AlikeManagers(found, like) && Survivable(m, s, like, logged)
    ensures Survivable(m, s, found, logged)
  {
    AlikeShow(m.hasher, found, like);
    hide Alike, AllValid, Overlay, Stack, Raw, ValidLists, IsStray;
    forall o, k | IsStray(found, o) && HasKey(RecordsOf(o), k)
      ensures k in logged
    {
      assert IsStray(like, o) && HasKey(RecordsOf(o), k);
    }
  }

  lemma {:induction false} AlikeShow(h: Hasher, s: Manager, t: Manager)
    requires AlikeManagers(s, t)
    ensures Raw(s) == Raw(t) && (ValidLists(h, s) <==> ValidLists(h, t)) && (forall o :: IsStray(s, o) <==> IsStray(t, o))
  {
    AlikeTables(h, s.l0, t.l0);
    AlikeTables(h, s.l1, t.l1);
    AlikeTables(h, s.l2, t.l2);
    hide Alike, AllValid, Overlay, Stack, Paths;
    PathsOfLevels(s);
    PathsOfLevels(t);
  }
}
