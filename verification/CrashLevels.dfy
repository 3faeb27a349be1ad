/** Levels with tables gone and tables added: for which keys that shows, and which files it leaves unlisted. */
module CrashLevels {
  import opened Seqs
  import opened Order
  import opened SortedMap
  import opened Records
  import opened BloomFilters
  import opened TableBuilder
  import opened Splitting
  import opened Selection
  import opened Leveling
  import opened ManagerState
  import opened Durability
  import opened DurableSteps
  import opened DurableCompaction
  import opened Compactions
  import opened Lookups
  import opened TakenOut
  import opened Strays
  import opened CrashAnswers

  /** The log knows every key of these tables. */
  ghost predicate KeysLogged(ts: seq<SSTable>, logged: map<string, Value>) {
    forall k :: k in Overlay(Stack(ts)) ==> k in logged
  }

  lemma {:induction false} RawByLevel(s: Manager, t: Manager, k: string)
    requires Lookup(Overlay(Stack(t.l0)), k) == Lookup(Overlay(Stack(s.l0)), k)
    requires Lookup(Overlay(Stack(t.l1)), k) == Lookup(Overlay(Stack(s.l1)), k)
    requires Lookup(Overlay(Stack(t.l2)), k) == Lookup(Overlay(Stack(s.l2)), k)
    ensures Lookup(Raw(t), k) == Lookup(Raw(s), k)
  {
    hide Overlay, Stack;
  }

  lemma {:induction false} ChosenLacks(ts: seq<SSTable>, c: seq<nat>, i: nat, k: string)
    requires InRange(ts, c) && i in c && k !in Overlay(Stack(Pick(ts, c)))
    ensures i < |ts| && !HasKey(RecordsOf(ts[i]), k)
  {
    var p :| 0 <= p < |c| && c[p] == i;
    hide Overlay, RecordsOf, Contents;
    if HasKey(RecordsOf(ts[i]), k) {
      OverlayKeys(Stack(Pick(ts, c)), p, k);
    }
  }

  lemma {:induction false} KeyElsewhere(ts: seq<SSTable>, c: seq<nat>, k: string)
    requires forall i :: 0 <= i < |ts| && i in c ==> !HasKey(RecordsOf(ts[i]), k)
    ensures Lookup(Overlay(Stack(Unchosen(ts, c))), k) == Lookup(Overlay(Stack(ts)), k)
  {
    if ts != [] {
      var n := |ts| - 1;
      KeyElsewhere(ts[..n], c, k);
      UnchosenOverlay(ts, c);
      hide RecordsOf, Contents, Unchosen;
      StackInit(ts);
      InitLast(Stack(ts));
    }
  }

  lemma {:induction false} StackInit(ts: seq<SSTable>)
    requires ts != []
    ensures Stack(ts)[..|ts| - 1] == Stack(ts[..|ts| - 1])
  {
    hide RecordsOf;
  }

  lemma {:induction false} UnchosenOverlay(ts: seq<SSTable>, c: seq<nat>)
    requires ts != []
    ensures var n := |ts| - 1;
            var before := Overlay(Stack(Unchosen(ts[..n], c)));
            Overlay(Stack(Unchosen(ts, c))) == if n in c then before else before + Contents(RecordsOf(ts[n]))
  {
    var n := |ts| - 1;
    hide Overlay, RecordsOf, Contents;
    if n in c {
      ConcatNothing(Unchosen(ts[..n], c));
    } else {
      StackConcat(Unchosen(ts[..n], c), [ts[n]]);
      assert Stack([ts[n]]) == [RecordsOf(ts[n])];
      OverlayConcat(Stack(Unchosen(ts[..n], c)), [RecordsOf(ts[n])]);
      OverlaySingle(RecordsOf(ts[n]));
    }
  }

  /** Tables without the key do not change what is found. */
  lemma {:induction false} AddedElsewhere(ts: seq<SSTable>, added: seq<SSTable>, n: nat, k: string)
    requires n <= |added| && k !in Overlay(Stack(added))
    ensures Lookup(Overlay(Stack(ts + added[..n])), k) == Lookup(Overlay(Stack(ts)), k)
  {
    hide Overlay, RecordsOf;
    TakeDrop(added, n);
    StackConcat(added[..n], added[n..]);
    OverlayConcat(Stack(added[..n]), Stack(added[n..]));
    StackConcat(ts, added[..n]);
    OverlayConcat(Stack(ts), Stack(added[..n]));
  }

  lemma {:induction false} PrefixDistinct(ts: seq<SSTable>, n: nat)
    requires DistinctPaths(ts) && n <= |ts|
    ensures DistinctPaths(ts[..n]) && forall t :: t in ts[..n] ==> t in ts
  {
  }

  /** Files only go, from `s` to `t`. */
  ghost predicate OnlyLoses(s: Manager, t: Manager) {
    forall p :: p in t.disk ==> p in s.disk && t.disk[p] == s.disk[p]
  }

  lemma {:induction false} RemovesLose(s: Manager, level: Level, idxs: seq<nat>)
    requires Descending(idxs, |LevelList(s, level)|)
    ensures OnlyLoses(s, RemoveTables(s, level, idxs))
    decreases |idxs|
  {
    if idxs != [] {
      RemovesLose(WithoutTable(s, level, idxs[0]), level, idxs[1..]);
    }
  }

  /** Every table's file is written. */
  ghost predicate Filed(disk: map<string, StoredFile>, ts: seq<SSTable>) {
    forall t :: t in ts ==> t.path in disk && disk[t.path].blocks == t.blocks
  }

  /** A merge has written the files of its tables. */
  lemma {:induction false} WrittenFiled(m: Medium, s: Manager, tables: seq<SSTable>, level: Level, drop: bool)
    ensures Filed(WriteMerged(m, s, tables, level, drop).disk, WrittenTables(m, s, tables, level, drop))
  {
    hide MergedRecords, Split, Store, CreatedTables, DistinctPaths;
    SplitExact(MergedRecords(tables, drop));
    CreatedPaths(m, level, s.nextId, Split(MergedRecords(tables, drop)));
    StoredFiles(s.disk, WrittenTables(m, s, tables, level, drop));
  }

  lemma {:induction false} GroupsStayDurable(m: Medium, s: Manager, level: Level, groups: seq<seq<Record>>)
    requires Durable(m, s) && SplitShape(groups)
    ensures Durable(m, WithFiles(m, s, level, groups).(nextId := s.nextId + 1 + FullCount(groups)))
  {
    WritesKeepDurable(m, s, level, groups);
    GroupCount(groups);
    LaterKeepsDurable(m, WithFiles(m, s, level, groups), s.nextId + 1 + FullCount(groups));
  }

  /** Writing them keeps the invariant, whatever their sizes. */
  lemma {:induction false} WrittenStaysDurable(m: Medium, s: Manager, tables: seq<SSTable>, level: Level, drop: bool)
    requires Durable(m, s)
    ensures Durable(m, WriteMerged(m, s.(nextId := s.nextId + 1), tables, level, drop))
  {
    hide MergedRecords, Split, Store, CreatedTables, Durable, FullCount;
    LaterKeepsDurable(m, s, s.nextId + 1);
    SplitExact(MergedRecords(tables, drop));
    GroupsStayDurable(m, s.(nextId := s.nextId + 1), level, Split(MergedRecords(tables, drop)));
  }

  /** When only new tables can be unlisted, their keys are all that strays have. */
  lemma {:induction false} NewStrays(w: Manager, t: Manager, outs: seq<SSTable>, inputs: seq<SSTable>, logged: map<string, Value>)
    requires ListedBut(t, Paths(outs)) && OnlyLoses(w, t) && Filed(w.disk, outs)
    requires KeysLogged(inputs, logged) && forall k :: k in Overlay(Stack(outs)) ==> k in Overlay(Stack(inputs))
    ensures StraysLogged(t, logged)
  {
    forall x, k | IsStray(t, x) && HasKey(RecordsOf(x), k)
      ensures k in logged
    {
      var o :| o in outs && o.path == x.path;
      SameBlocks(x, o);
      var i :| 0 <= i < |outs| && outs[i] == o;
      OverlayKeys(Stack(outs), i, k);
    }
  }

  lemma {:induction false} SameBlocks(a: SSTable, b: SSTable)
    requires a.blocks == b.blocks
    ensures RecordsOf(a) == RecordsOf(b)
  {
  }

  /** Installing some of the new tables leaves only new tables unlisted. */
  lemma {:induction false} InstallingStrays(w: Manager, r: Manager, outs: seq<SSTable>, installed: nat,
                                            inputs: seq<SSTable>, logged: map<string, Value>)
    requires ListedBut(r, Paths(outs)) && OnlyLoses(w, r) && installed <= |outs| && Filed(w.disk, outs)
    requires KeysLogged(inputs, logged) && forall k :: k in Overlay(Stack(outs)) ==> k in Overlay(Stack(inputs))
    ensures StraysLogged(InstallTables(r, outs[..installed]), logged)
  {
    var t := InstallTables(r, outs[..installed]);
    InstallsListed(r, outs[..installed], Paths(outs));
    InstallTablesDisk(r, outs[..installed]);
    hide InstallTables, Paths, AllTables, Filed, Overlay, Stack, KeysLogged, StraysLogged;
    NewStrays(w, t, outs, inputs, logged);
  }

  lemma {:induction false} DescendingPrefix(idxs: seq<nat>, n: nat, len: nat)
    requires Descending(idxs, len) && n <= |idxs|
    ensures Descending(idxs[..n], len) && forall i :: i in idxs[..n] ==> i in idxs
  {
  }

  lemma {:induction false} RemovingStrays(w: Manager, level: Level, d: seq<nat>, n: nat, outs: seq<SSTable>)
    requires Descending(d, |LevelList(w, level)|) && n <= |d| && ListedBut(w, Paths(outs))
    ensures Descending(d[..n], |LevelList(w, level)|)
    ensures var r := RemoveTables(w, level, d[..n]); ListedBut(r, Paths(outs)) && OnlyLoses(w, r)
  {
    hide ListedBut, Paths, RemoveTables, OnlyLoses;
    DescendingPrefix(d, n, |LevelList(w, level)|);
    RemovesListed(w, level, d[..n], Paths(outs));
    RemovesLose(w, level, d[..n]);
  }

  lemma {:induction false} MovingStrays(w: Manager, r: Manager, outs: seq<SSTable>)
    requires r.l1 != [] && ListedBut(r, Paths(outs)) && OnlyLoses(w, r)
    ensures var q := WithoutTable(r, L1, 0); ListedBut(q, Paths(outs)) && OnlyLoses(w, q)
  {
    hide Paths, ListedBut, AllTables;
    WithoutListed(r, L1, 0, Paths(outs));
  }

  lemma {:induction false} OldestElsewhere(ts: seq<SSTable>, k: string)
    requires ts != [] && k !in Contents(RecordsOf(ts[0]))
    ensures Lookup(Overlay(Stack(ts[1..])), k) == Lookup(Overlay(Stack(ts)), k)
  {
    OldestFirst(ts);
    hide Overlay, Stack, RecordsOf, Contents;
  }

  lemma {:induction false} NothingInstalled(s: Manager, ts: seq<SSTable>)
    ensures InstallTables(s, ts[..0]) == s
  {
  }

  lemma {:induction false} UnchosenHas<T>(ts: seq<T>, c: seq<nat>, i: nat)
    requires i < |ts| && i !in c
    ensures ts[i] in Unchosen(ts, c)
  {
    if i < |ts| - 1 {
      UnchosenHas(ts[..|ts| - 1], c, i);
    }
  }

  /** The first of some tables with ascending ranges show, for their keys, what all of them show. */
  lemma {:induction false} PrefixRestricts(h: Hasher, ts: seq<SSTable>, n: nat)
    requires AllValid(h, ts) && AscendingRanges(ts) && n <= |ts|
    ensures var shown := Overlay(Stack(ts[..n])); shown == Restricted(Overlay(Stack(ts)), shown.Keys)
  {
    hide Overlay, RecordsOf, Contents, ValidTable, Less;
    var shown := Overlay(Stack(ts[..n]));
    forall k | k in shown
      ensures k in Overlay(Stack(ts)) && Overlay(Stack(ts))[k] == shown[k]
    {
      var i := OverlayOrigin(Stack(ts[..n]), k);
      OutKeys(h, ts, i, k);
    }
  }

  lemma {:induction false} PathListed(s: Manager, level: Level, t: SSTable)
    requires t in LevelList(s, level)
    ensures t.path in Paths(AllTables(s))
  {
    LevelInAll(s, level);
  }
}
